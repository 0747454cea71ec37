/**
  The desktop record store: one ordered key space holding records, index entries and counters, changed
  only by batches that commit as a whole. The index must be exactly what the records call for.
*/
module RecordStore {
  import opened Wrappers
  import opened Text
  import opened RecordSearch
  import opened RecordKeys

  datatype Value = Rec(rec: LocalRecord) | Pointer(id: string) | Count(n: nat) | Mark

  type KV = map<string, Value>

  datatype Op = Put(key: string, value: Value) | Del(key: string)

  function ApplyOp(kv: KV, op: Op): KV {
    match op
    case Put(k, v) => kv[k := v]
    case Del(k) => kv - {k}
  }

  /** A batch takes effect in the order it was staged. */
  function Commit(kv: KV, ops: seq<Op>): KV
    decreases |ops|
  {
    if ops == [] then kv else Commit(ApplyOp(kv, ops[0]), ops[1..])
  }

  function Lookup(kv: KV, id: string): Option<LocalRecord> {
    var k := RecordKey(id);
    if id == "" || k !in kv || !kv[k].Rec? then None else Some(kv[k].rec)
  }

  function Counter(kv: KV, key: string): nat {
    if key in kv && kv[key].Count? then kv[key].n else 0
  }

  // ---------- staged operations ----------

  function Puts(keys: seq<string>, id: string): (ops: seq<Op>)
    ensures |ops| == |keys|
  {
    seq(|keys|, i requires 0 <= i < |keys| => Put(keys[i], Pointer(id)))
  }

  function Dels(keys: seq<string>): (ops: seq<Op>)
    ensures |ops| == |keys|
  {
    seq(|keys|, i requires 0 <= i < |keys| => Del(keys[i]))
  }

  /** A counter never goes below zero. */
  function CounterOp(kv: KV, key: string, delta: int): Op {
    var next := Counter(kv, key) + delta;
    Put(key, Count(if next < 0 then 0 else next))
  }

  function LevelOp(kv: KV, level: string, delta: int): seq<Op> {
    if level == "" then [] else [CounterOp(kv, LevelCountKey(level), delta)]
  }

  /** The index keys of each record. The store's own is KeysOf(lib). */
  type KeyFunction = LocalRecord -> seq<string>

  function KeysOf(lib: Library): KeyFunction {
    rec => IndexKeys(lib, rec)
  }

  /** Replaces the index entries and the value of one record. */
  function ReplaceOps(keysOf: KeyFunction, kv: KV, rec: LocalRecord, counters: seq<Op>): seq<Op> {
    var was := Lookup(kv, rec.recordID);
    (if was.Some? then Dels(keysOf(was.value)) else [])
    + counters
    + [Put(RecordKey(rec.recordID), Rec(rec))]
    + Puts(keysOf(rec), rec.recordID)
  }

  function UpsertCounters(kv: KV, rec: LocalRecord): seq<Op> {
    match Lookup(kv, rec.recordID)
    case None => [CounterOp(kv, COUNT_ALL, 1)] + LevelOp(kv, rec.proofLevel, 1)
    case Some(was) =>
      if was.proofLevel == rec.proofLevel then []
      else LevelOp(kv, was.proofLevel, -1) + LevelOp(kv, rec.proofLevel, 1)
  }

  function UpsertOps(keysOf: KeyFunction, kv: KV, rec: LocalRecord): seq<Op> {
    ReplaceOps(keysOf, kv, rec, UpsertCounters(kv, rec))
  }

  function DeleteOps(keysOf: KeyFunction, kv: KV, was: LocalRecord, id: string): seq<Op> {
    [Del(RecordKey(id))] + Dels(keysOf(was))
    + [CounterOp(kv, COUNT_ALL, -1)] + LevelOp(kv, was.proofLevel, -1)
  }

  // ---------- agreement ----------

  ghost predicate OwnIDs(records: map<string, LocalRecord>) {
    forall id <- records :: id != "" && records[id].recordID == id
  }

  /** Record keys hold exactly the records. */
  ghost predicate Stored(kv: KV, records: map<string, LocalRecord>) {
    && OwnIDs(records)
    && (forall id <- records :: Holds(kv, RecordKey(id), Rec(records[id])))
    && (forall id :: RecordKey(id) in kv ==> id in records)
  }

  /** Index keys are exactly those the records call for, each pointing to its record. */
  ghost predicate Indexed(keysOf: KeyFunction, kv: KV, records: map<string, LocalRecord>) {
    && (forall id <- records, k <- keysOf(records[id]) :: Holds(kv, k, Pointer(id)))
    && (forall k <- kv :: IsIndex(k) ==> PointsBack(keysOf, kv, records, k))
  }

  predicate Holds(kv: KV, k: string, v: Value) { k in kv && kv[k] == v }

  predicate PointsBack(keysOf: KeyFunction, kv: KV, records: map<string, LocalRecord>, k: string)
    requires k in kv
  {
    kv[k].Pointer? && kv[k].id in records && k in keysOf(records[kv[k].id])
  }

  ghost predicate IndexAgrees(keysOf: KeyFunction, kv: KV, records: map<string, LocalRecord>) {
    Stored(kv, records) && Indexed(keysOf, kv, records)
  }

  predicate IsIndex(k: string) { "idx/" <= k }

  predicate IsCounter(k: string) { "cnt/" <= k }

  ghost function AtLevel(records: map<string, LocalRecord>, level: string): set<string> {
    set id | id in records && records[id].proofLevel == level
  }

  /** Every counter is exact. */
  ghost predicate CountersAgree(kv: KV, records: map<string, LocalRecord>) {
    && (forall k <- kv :: IsCounter(k) ==> kv[k].Count?)
    && Counter(kv, COUNT_ALL) == |records|
    && (forall level :: level != "" ==> Counter(kv, LevelCountKey(level)) == |AtLevel(records, level)|)
  }

  ghost predicate Agrees(keysOf: KeyFunction, kv: KV, records: map<string, LocalRecord>) {
    IndexAgrees(keysOf, kv, records) && CountersAgree(kv, records)
  }

  /** What the store needs of its index keys: an area of their own, and none shared by two IDs. */
  ghost predicate Separating(keysOf: KeyFunction) {
    && (forall r, k :: k in keysOf(r) ==> IsIndex(k))
    && (forall a, b, k :: k in keysOf(a) && k in keysOf(b) ==> a.recordID == b.recordID)
  }

  lemma KeysOfSeparates(lib: Library)
    ensures Separating(KeysOf(lib))
  {
    var keysOf := KeysOf(lib);
    forall r, k | k in keysOf(r) ensures IsIndex(k) {
      KeyArea(lib, r, k);
    }
    forall a, b, k | k in keysOf(a) && k in keysOf(b) ensures a.recordID == b.recordID {
      KeysDisjoint(lib, a, b, k);
    }
  }

  /** An index key is neither a counter nor a record. */
  lemma KeyArea(lib: Library, rec: LocalRecord, k: string)
    requires k in IndexKeys(lib, rec)
    ensures IsIndex(k) && !IsCounter(k) && !IsRecord(k)
  {
    IndexKeysAre(lib, rec, k);
    var slot :| slot in Slots(lib, rec) && k == Prefix(slot) + Suffix(lib, rec);
    PrefixArea(slot);
    AreasApart(k);
  }

  lemma PrefixArea(slot: Slot)
    ensures IsIndex(Prefix(slot))
  {
    assert IsIndex(Family(slot));
    assert Family(slot) <= Prefix(slot);
  }

  lemma RecordKeyInjective(a: string, b: string)
    requires RecordKey(a) == RecordKey(b)
    ensures a == b
  {
    assert RecordKey(a)[4..] == a && RecordKey(b)[4..] == b;
  }

  // ---------- what a batch does ----------

  lemma {:induction false} CommitConcat(kv: KV, a: seq<Op>, b: seq<Op>)
    ensures Commit(kv, a + b) == Commit(Commit(kv, a), b)
    decreases |a|
  {
    if a == [] {
      assert a + b == b;
    } else {
      assert (a + b)[1..] == a[1..] + b;
      CommitConcat(ApplyOp(kv, a[0]), a[1..], b);
    }
  }

  lemma {:induction false} CommitDels(kv: KV, keys: seq<string>)
    ensures Commit(kv, Dels(keys)) == kv - (set k <- keys)
    decreases |keys|
  {
    if keys != [] {
      assert Dels(keys)[1..] == Dels(keys[1..]);
      CommitDels(kv - {keys[0]}, keys[1..]);
      assert keys == [keys[0]] + keys[1..];
      assert (set k <- keys) == {keys[0]} + (set k <- keys[1..]);
    }
  }

  function PointerMap(keys: seq<string>, id: string): KV {
    map k <- keys :: Pointer(id)
  }

  lemma {:induction false} CommitPuts(kv: KV, keys: seq<string>, id: string)
    ensures Commit(kv, Puts(keys, id)) == kv + PointerMap(keys, id)
    decreases |keys|
  {
    if keys != [] {
      assert Puts(keys, id)[1..] == Puts(keys[1..], id);
      CommitPuts(kv[keys[0] := Pointer(id)], keys[1..], id);
      assert keys == [keys[0]] + keys[1..];
    }
  }

  /** The net effect of ReplaceOps. */
  function Replaced(keysOf: KeyFunction, kv: KV, rec: LocalRecord, counters: KV): KV {
    var was := Lookup(kv, rec.recordID);
    var gone := if was.Some? then set k <- keysOf(was.value) else {};
    ((kv - gone) + counters)[RecordKey(rec.recordID) := Rec(rec)] + PointerMap(keysOf(rec), rec.recordID)
  }

  ghost predicate OnlyCounters(m: KV) {
    forall k <- m :: IsCounter(k) && m[k].Count?
  }

  /** The same, key by key. */
  lemma ReplacedAt(keysOf: KeyFunction, kv: KV, rec: LocalRecord, counters: KV, k: string)
    ensures var kv' := Replaced(keysOf, kv, rec, counters);
            var was := Lookup(kv, rec.recordID);
            if k in keysOf(rec) then Holds(kv', k, Pointer(rec.recordID))
            else if k == RecordKey(rec.recordID) then Holds(kv', k, Rec(rec))
            else if k in counters then Holds(kv', k, counters[k])
            else if was.Some? && k in keysOf(was.value) then k !in kv'
            else (k in kv' <==> k in kv) && (k in kv ==> kv'[k] == kv[k])
  {}

  lemma LookupIs(kv: KV, records: map<string, LocalRecord>, id: string)
    requires Stored(kv, records)
    ensures Lookup(kv, id) == if id in records then Some(records[id]) else None
  {
    if id in records { assert Holds(kv, RecordKey(id), Rec(records[id])); }
  }

  lemma AreasApart(k: string)
    ensures !(IsIndex(k) && IsCounter(k)) && !(IsIndex(k) && IsRecord(k))
  {
    if IsIndex(k) { assert k[0] == 'i'; }
  }

  lemma RecordKeyArea(id: string)
    ensures !IsIndex(RecordKey(id)) && !IsCounter(RecordKey(id))
  {
    assert RecordKey(id)[0] == 'r';
  }

  lemma ReplacedRecord(keysOf: KeyFunction, kv: KV, rec: LocalRecord, counters: KV, x: string)
    requires Separating(keysOf) && OnlyCounters(counters)
    ensures var kv', k := Replaced(keysOf, kv, rec, counters), RecordKey(x);
            if x == rec.recordID then Holds(kv', k, Rec(rec))
            else (k in kv' <==> k in kv) && (k in kv ==> kv'[k] == kv[k])
  {
    RecordKeyArea(x);
    ReplacedAt(keysOf, kv, rec, counters, RecordKey(x));
    if RecordKey(x) == RecordKey(rec.recordID) { RecordKeyInjective(x, rec.recordID); }
  }

  lemma ReplaceKeepsStored(keysOf: KeyFunction, kv: KV, records: map<string, LocalRecord>, rec: LocalRecord,
                           counters: KV)
    requires Separating(keysOf) && Stored(kv, records) && rec.recordID != "" && OnlyCounters(counters)
    ensures Stored(Replaced(keysOf, kv, rec, counters), records[rec.recordID := rec])
  {
    var kv', records' := Replaced(keysOf, kv, rec, counters), records[rec.recordID := rec];
    forall x: string
      ensures RecordKey(x) in kv' ==> x in records'
      ensures x in records' ==> Holds(kv', RecordKey(x), Rec(records'[x]))
    {
      ReplacedRecord(keysOf, kv, rec, counters, x);
      if x in records { assert Holds(kv, RecordKey(x), Rec(records[x])); }
    }
  }

  lemma ReplaceKeepsIndexed(keysOf: KeyFunction, kv: KV, records: map<string, LocalRecord>, rec: LocalRecord,
                            counters: KV)
    requires Separating(keysOf) && IndexAgrees(keysOf, kv, records) && rec.recordID != "" && OnlyCounters(counters)
    ensures Indexed(keysOf, Replaced(keysOf, kv, rec, counters), records[rec.recordID := rec])
  {
    var id := rec.recordID;
    var kv', records' := Replaced(keysOf, kv, rec, counters), records[id := rec];
    LookupIs(kv, records, id);
    RecordKeyArea(id);
    forall x, k | x in records' && k in keysOf(records'[x]) ensures Holds(kv', k, Pointer(x)) {
      assert IsIndex(k);
      AreasApart(k);
      ReplacedAt(keysOf, kv, rec, counters, k);
      if x != id { assert Holds(kv, k, Pointer(x)); }
    }
    forall k | k in kv' && IsIndex(k) ensures PointsBack(keysOf, kv', records', k) {
      AreasApart(k);
      ReplacedAt(keysOf, kv, rec, counters, k);
      if k !in keysOf(rec) { assert PointsBack(keysOf, kv, records, k); }
    }
  }

  // ---------- deleting a record ----------

  function Removed(keysOf: KeyFunction, kv: KV, was: LocalRecord, id: string, counters: KV): KV {
    (kv - {RecordKey(id)} - (set k <- keysOf(was))) + counters
  }

  lemma RemovedAt(keysOf: KeyFunction, kv: KV, was: LocalRecord, id: string, counters: KV, k: string)
    ensures var kv' := Removed(keysOf, kv, was, id, counters);
            if k in counters then Holds(kv', k, counters[k])
            else if k == RecordKey(id) || k in keysOf(was) then k !in kv'
            else (k in kv' <==> k in kv) && (k in kv ==> kv'[k] == kv[k])
  {}

  lemma RemoveKeepsStored(keysOf: KeyFunction, kv: KV, records: map<string, LocalRecord>, id: string, counters: KV)
    requires Separating(keysOf) && Stored(kv, records) && id in records && OnlyCounters(counters)
    ensures Stored(Removed(keysOf, kv, records[id], id, counters), records - {id})
  {
    var kv', records' := Removed(keysOf, kv, records[id], id, counters), records - {id};
    forall x: string
      ensures RecordKey(x) in kv' ==> x in records'
      ensures x in records' ==> Holds(kv', RecordKey(x), Rec(records'[x]))
    {
      RecordKeyArea(x);
      RemovedAt(keysOf, kv, records[id], id, counters, RecordKey(x));
      if RecordKey(x) == RecordKey(id) { RecordKeyInjective(x, id); }
      if x in records { assert Holds(kv, RecordKey(x), Rec(records[x])); }
    }
  }

  lemma RemoveKeepsIndexed(keysOf: KeyFunction, kv: KV, records: map<string, LocalRecord>, id: string, counters: KV)
    requires Separating(keysOf) && IndexAgrees(keysOf, kv, records) && id in records && OnlyCounters(counters)
    ensures Indexed(keysOf, Removed(keysOf, kv, records[id], id, counters), records - {id})
  {
    var kv', records' := Removed(keysOf, kv, records[id], id, counters), records - {id};
    RecordKeyArea(id);
    forall x, k | x in records' && k in keysOf(records'[x]) ensures Holds(kv', k, Pointer(x)) {
      assert IsIndex(k);
      AreasApart(k);
      RemovedAt(keysOf, kv, records[id], id, counters, k);
      assert Holds(kv, k, Pointer(x));
    }
    forall k | k in kv' && IsIndex(k) ensures PointsBack(keysOf, kv', records', k) {
      AreasApart(k);
      RemovedAt(keysOf, kv, records[id], id, counters, k);
      assert PointsBack(keysOf, kv, records, k);
    }
  }

  // ---------- batches and their net effect ----------

  lemma {:induction false} CommitOverlay(kv: KV, ops: seq<Op>)
    requires forall i :: 0 <= i < |ops| ==> ops[i].Put?
    ensures Commit(kv, ops) == kv + Commit(map[], ops)
    decreases |ops|
  {
    if ops != [] {
      var k, v := ops[0].key, ops[0].value;
      CommitOverlay(kv[k := v], ops[1..]);
      CommitOverlay(map[][k := v], ops[1..]);
    }
  }

  lemma CommitFirstHalf(kv: KV, keys: seq<string>, counters: seq<Op>)
    requires forall i :: 0 <= i < |counters| ==> counters[i].Put?
    ensures Commit(kv, Dels(keys) + counters) == (kv - (set k <- keys)) + Commit(map[], counters)
  {
    CommitConcat(kv, Dels(keys), counters);
    CommitDels(kv, keys);
    CommitOverlay(Commit(kv, Dels(keys)), counters);
  }

  lemma CommitSecondHalf(kv: KV, keys: seq<string>, rec: LocalRecord)
    ensures Commit(kv, [Put(RecordKey(rec.recordID), Rec(rec))] + Puts(keys, rec.recordID))
         == kv[RecordKey(rec.recordID) := Rec(rec)] + PointerMap(keys, rec.recordID)
  {
    var put := [Put(RecordKey(rec.recordID), Rec(rec))];
    CommitConcat(kv, put, Puts(keys, rec.recordID));
    assert put[1..] == [];
    CommitPuts(kv[RecordKey(rec.recordID) := Rec(rec)], keys, rec.recordID);
  }

  lemma ReplaceInHalves(keysOf: KeyFunction, kv: KV, rec: LocalRecord, counters: seq<Op>, gone: seq<string>)
    requires gone == var was := Lookup(kv, rec.recordID); if was.Some? then keysOf(was.value) else []
    ensures ReplaceOps(keysOf, kv, rec, counters)
         == (Dels(gone) + counters) + ([Put(RecordKey(rec.recordID), Rec(rec))] + Puts(keysOf(rec), rec.recordID))
  {
    if gone == [] { assert Dels(gone) == []; }
  }

  lemma CommitReplace(keysOf: KeyFunction, kv: KV, rec: LocalRecord, counters: seq<Op>)
    requires forall i :: 0 <= i < |counters| ==> counters[i].Put?
    ensures Commit(kv, ReplaceOps(keysOf, kv, rec, counters)) == Replaced(keysOf, kv, rec, Commit(map[], counters))
  {
    var was := Lookup(kv, rec.recordID);
    var gone := if was.Some? then keysOf(was.value) else [];
    var first := Dels(gone) + counters;
    ReplaceInHalves(keysOf, kv, rec, counters, gone);
    CommitConcat(kv, first, [Put(RecordKey(rec.recordID), Rec(rec))] + Puts(keysOf(rec), rec.recordID));
    CommitFirstHalf(kv, gone, counters);
    CommitSecondHalf(Commit(kv, first), keysOf(rec), rec);
  }

  lemma CommitDelete(keysOf: KeyFunction, kv: KV, was: LocalRecord, id: string)
    ensures Commit(kv, DeleteOps(keysOf, kv, was, id))
         == Removed(keysOf, kv, was, id,
                    Commit(map[], [CounterOp(kv, COUNT_ALL, -1)] + LevelOp(kv, was.proofLevel, -1)))
  {
    var del, dels := [Del(RecordKey(id))], Dels(keysOf(was));
    var counters := [CounterOp(kv, COUNT_ALL, -1)] + LevelOp(kv, was.proofLevel, -1);
    assert DeleteOps(keysOf, kv, was, id) == del + dels + counters;
    CommitConcat(kv, del + dels, counters);
    CommitConcat(kv, del, dels);
    assert del[1..] == [] && Commit(kv, del) == kv - {RecordKey(id)};
    CommitDels(Commit(kv, del), keysOf(was));
    CommitOverlay(Commit(kv, del + dels), counters);
  }

  // ---------- counters ----------

  lemma AtLevelPut(records: map<string, LocalRecord>, rec: LocalRecord, level: string)
    ensures var id := rec.recordID;
            |AtLevel(records[id := rec], level)| == |AtLevel(records, level)|
              + (if rec.proofLevel == level then 1 else 0)
              - (if id in records && records[id].proofLevel == level then 1 else 0)
  {
    var id := rec.recordID;
    var now, before := AtLevel(records[id := rec], level), AtLevel(records, level);
    if rec.proofLevel == level { assert now == before + {id}; } else { assert now == before - {id}; }
  }

  lemma AtLevelRemove(records: map<string, LocalRecord>, id: string, level: string)
    requires id in records
    ensures |AtLevel(records - {id}, level)| ==
            |AtLevel(records, level)| - (if records[id].proofLevel == level then 1 else 0)
  {
    assert AtLevel(records - {id}, level) == AtLevel(records, level) - {id};
  }

  lemma LevelKeyArea(level: string)
    ensures IsCounter(LevelCountKey(level)) && LevelCountKey(level) != COUNT_ALL
  {
    assert LevelCountKey(level)[4] == 'l' && COUNT_ALL[4] == 'a';
  }

  /** A batch changes a counter only through the counter operations it stages. */
  ghost predicate Overlaid(kv: KV, kv': KV, counters: KV) {
    forall k :: IsCounter(k) ==>
      if k in counters then Holds(kv', k, counters[k])
      else (k in kv' <==> k in kv) && (k in kv ==> kv'[k] == kv[k])
  }

  lemma CounterApart(keysOf: KeyFunction, k: string, r: LocalRecord, id: string)
    requires Separating(keysOf) && IsCounter(k)
    ensures k !in keysOf(r) && k != RecordKey(id)
  {
    RecordKeyArea(id);
    assert k in keysOf(r) ==> IsIndex(k);
  }

  lemma ReplacedOverlaid(keysOf: KeyFunction, kv: KV, rec: LocalRecord, counters: KV)
    requires Separating(keysOf)
    ensures Overlaid(kv, Replaced(keysOf, kv, rec, counters), counters)
  {
    forall k | IsCounter(k)
      ensures var kv' := Replaced(keysOf, kv, rec, counters);
              if k in counters then Holds(kv', k, counters[k])
              else (k in kv' <==> k in kv) && (k in kv ==> kv'[k] == kv[k])
    {
      var was := Lookup(kv, rec.recordID);
      CounterApart(keysOf, k, rec, rec.recordID);
      if was.Some? { CounterApart(keysOf, k, was.value, rec.recordID); }
      ReplacedAt(keysOf, kv, rec, counters, k);
    }
  }

  lemma RemovedOverlaid(keysOf: KeyFunction, kv: KV, was: LocalRecord, id: string, counters: KV)
    requires Separating(keysOf)
    ensures Overlaid(kv, Removed(keysOf, kv, was, id, counters), counters)
  {
    forall k | IsCounter(k)
      ensures var kv' := Removed(keysOf, kv, was, id, counters);
              if k in counters then Holds(kv', k, counters[k])
              else (k in kv' <==> k in kv) && (k in kv ==> kv'[k] == kv[k])
    {
      CounterApart(keysOf, k, was, id);
      RemovedAt(keysOf, kv, was, id, counters, k);
    }
  }

  function LevelMap(kv: KV, level: string, delta: int): KV {
    if level == "" then map[] else map[LevelCountKey(level) := CounterOp(kv, LevelCountKey(level), delta).value]
  }

  function TotalMap(kv: KV, delta: int): KV {
    map[COUNT_ALL := CounterOp(kv, COUNT_ALL, delta).value]
  }

  lemma CommitOne(op: Op)
    requires op.Put?
    ensures Commit(map[], [op]) == map[op.key := op.value]
  {
    assert [op][1..] == [];
  }

  lemma LevelOpsMap(kv: KV, first: seq<Op>, level: string, delta: int)
    requires |first| <= 1 && forall i :: 0 <= i < |first| ==> first[i].Put?
    ensures Commit(map[], first + LevelOp(kv, level, delta)) == Commit(map[], first) + LevelMap(kv, level, delta)
  {
    CommitConcat(map[], first, LevelOp(kv, level, delta));
    if level != "" {
      var op := CounterOp(kv, LevelCountKey(level), delta);
      assert [op][1..] == [];
    }
  }

  /** The counter operations move one counter by one, so an exact counter stays exact and is never
      pushed below zero. */
  lemma LevelMapExact(kv: KV, records: map<string, LocalRecord>, level: string, delta: int)
    requires CountersAgree(kv, records) && (delta == 1 || (delta == -1 && AtLevel(records, level) != {}))
    ensures OnlyCounters(LevelMap(kv, level, delta))
    ensures forall l :: l != "" ==>
              var k := LevelCountKey(l);
              (k in LevelMap(kv, level, delta) <==> l == level)
              && (l == level ==> LevelMap(kv, level, delta)[k] == Count(|AtLevel(records, level)| + delta))
    ensures COUNT_ALL !in LevelMap(kv, level, delta)
  {
    LevelKeyArea(level);
    forall l | l != "" && LevelCountKey(l) in LevelMap(kv, level, delta) ensures l == level {
      LevelKeyInjective(l, level);
    }
  }

  /** Counters after a batch: each moved by what its counter operation says. */
  lemma CountersFollow(kv: KV, kv': KV, counters: KV, records: map<string, LocalRecord>,
                       records': map<string, LocalRecord>)
    requires CountersAgree(kv, records) && Overlaid(kv, kv', counters) && OnlyCounters(counters)
    requires if COUNT_ALL in counters then counters[COUNT_ALL].n == |records'| else |records'| == |records|
    requires forall l :: l != "" ==> LevelFollows(counters, records, records', l)
    ensures CountersAgree(kv', records')
  {
    forall k | k in kv' && IsCounter(k) ensures kv'[k].Count? {
      if k in counters { assert Holds(kv', k, counters[k]); }
    }
    forall l | l != "" ensures Counter(kv', LevelCountKey(l)) == |AtLevel(records', l)| {
      LevelKeyArea(l);
      assert LevelFollows(counters, records, records', l);
    }
  }

  /** What the staged counters must say of one level. */
  ghost predicate LevelFollows(counters: KV, records: map<string, LocalRecord>, records': map<string, LocalRecord>,
                               l: string) {
    var k := LevelCountKey(l);
    if k in counters then counters[k].Count? && counters[k].n == |AtLevel(records', l)|
    else |AtLevel(records', l)| == |AtLevel(records, l)|
  }

  lemma InsertLevelFollows(kv: KV, records: map<string, LocalRecord>, rec: LocalRecord, l: string)
    requires CountersAgree(kv, records) && rec.recordID !in records && l != ""
    ensures LevelFollows(TotalMap(kv, 1) + LevelMap(kv, rec.proofLevel, 1), records, records[rec.recordID := rec], l)
  {
    LevelMapExact(kv, records, rec.proofLevel, 1);
    LevelKeyArea(l);
    AtLevelPut(records, rec, l);
  }

  lemma InsertTotal(kv: KV, records: map<string, LocalRecord>, rec: LocalRecord)
    requires CountersAgree(kv, records) && rec.recordID !in records
    ensures var counters := TotalMap(kv, 1) + LevelMap(kv, rec.proofLevel, 1);
            OnlyCounters(counters) && COUNT_ALL in counters
            && counters[COUNT_ALL] == Count(|records[rec.recordID := rec]|)
  {
    LevelMapExact(kv, records, rec.proofLevel, 1);
    OneMore(records, rec);
    TotalExact(kv, records, LevelMap(kv, rec.proofLevel, 1));
  }

  lemma OneMore(records: map<string, LocalRecord>, rec: LocalRecord)
    requires rec.recordID !in records
    ensures |records[rec.recordID := rec]| == |records| + 1
  {
    assert records[rec.recordID := rec].Keys == records.Keys + {rec.recordID};
  }

  lemma TotalExact(kv: KV, records: map<string, LocalRecord>, levels: KV)
    requires CountersAgree(kv, records) && OnlyCounters(levels) && COUNT_ALL !in levels
    ensures var counters := TotalMap(kv, 1) + levels;
            OnlyCounters(counters) && COUNT_ALL in counters && counters[COUNT_ALL] == Count(|records| + 1)
  {
  }

  lemma InsertCounters(keysOf: KeyFunction, kv: KV, records: map<string, LocalRecord>, rec: LocalRecord)
    requires Separating(keysOf) && CountersAgree(kv, records) && rec.recordID !in records
    ensures var counters := TotalMap(kv, 1) + LevelMap(kv, rec.proofLevel, 1);
            OnlyCounters(counters)
            && CountersAgree(Replaced(keysOf, kv, rec, counters), records[rec.recordID := rec])
  {
    var counters := TotalMap(kv, 1) + LevelMap(kv, rec.proofLevel, 1);
    var records' := records[rec.recordID := rec];
    InsertTotal(kv, records, rec);
    forall l | l != "" ensures LevelFollows(counters, records, records', l) {
      InsertLevelFollows(kv, records, rec, l);
    }
    ReplacedOverlaid(keysOf, kv, rec, counters);
    CountersFollow(kv, Replaced(keysOf, kv, rec, counters), counters, records, records');
  }

  lemma UpdateCounters(keysOf: KeyFunction, kv: KV, records: map<string, LocalRecord>, rec: LocalRecord)
    requires Separating(keysOf) && CountersAgree(kv, records) && rec.recordID in records
    ensures var was := records[rec.recordID];
            var counters := if was.proofLevel == rec.proofLevel then map[]
                            else LevelMap(kv, was.proofLevel, -1) + LevelMap(kv, rec.proofLevel, 1);
            OnlyCounters(counters)
            && CountersAgree(Replaced(keysOf, kv, rec, counters), records[rec.recordID := rec])
  {
    var id := rec.recordID;
    var was := records[id];
    var counters := if was.proofLevel == rec.proofLevel then map[]
                    else LevelMap(kv, was.proofLevel, -1) + LevelMap(kv, rec.proofLevel, 1);
    var records' := records[id := rec];
    assert id in AtLevel(records, was.proofLevel);
    LevelMapExact(kv, records, was.proofLevel, -1);
    LevelMapExact(kv, records, rec.proofLevel, 1);
    ReplacedOverlaid(keysOf, kv, rec, counters);
    assert records'.Keys == records.Keys;
    forall l | l != ""
      ensures LevelFollows(counters, records, records', l)
    {
      AtLevelPut(records, rec, l);
    }
    CountersFollow(kv, Replaced(keysOf, kv, rec, counters), counters, records, records');
  }

  lemma RemoveCounters(keysOf: KeyFunction, kv: KV, records: map<string, LocalRecord>, id: string)
    requires Separating(keysOf) && CountersAgree(kv, records) && id in records
    ensures var was := records[id];
            var counters := TotalMap(kv, -1) + LevelMap(kv, was.proofLevel, -1);
            OnlyCounters(counters)
            && CountersAgree(Removed(keysOf, kv, was, id, counters), records - {id})
  {
    var was := records[id];
    var counters := TotalMap(kv, -1) + LevelMap(kv, was.proofLevel, -1);
    var records' := records - {id};
    assert id in AtLevel(records, was.proofLevel);
    LevelMapExact(kv, records, was.proofLevel, -1);
    RemovedOverlaid(keysOf, kv, was, id, counters);
    assert records'.Keys == records.Keys - {id};
    forall l | l != ""
      ensures LevelFollows(counters, records, records', l)
    {
      LevelKeyArea(l);
      AtLevelRemove(records, id, l);
    }
    CountersFollow(kv, Removed(keysOf, kv, was, id, counters), counters, records, records');
  }

  // ---------- the operations keep the agreement ----------

  /** The counters an upsert writes. */
  function UpsertMap(kv: KV, rec: LocalRecord): KV {
    match Lookup(kv, rec.recordID)
    case None => TotalMap(kv, 1) + LevelMap(kv, rec.proofLevel, 1)
    case Some(was) =>
      if was.proofLevel == rec.proofLevel then map[]
      else LevelMap(kv, was.proofLevel, -1) + LevelMap(kv, rec.proofLevel, 1)
  }

  lemma UpsertMapStaged(kv: KV, rec: LocalRecord)
    ensures Commit(map[], UpsertCounters(kv, rec)) == UpsertMap(kv, rec)
    ensures forall i :: 0 <= i < |UpsertCounters(kv, rec)| ==> UpsertCounters(kv, rec)[i].Put?
  {
    match Lookup(kv, rec.recordID)
    case None =>
      LevelOpsMap(kv, [CounterOp(kv, COUNT_ALL, 1)], rec.proofLevel, 1);
      CommitOne(CounterOp(kv, COUNT_ALL, 1));
    case Some(was) =>
      if was.proofLevel != rec.proofLevel {
        var first := LevelOp(kv, was.proofLevel, -1);
        LevelOpsMap(kv, [], was.proofLevel, -1);
        LevelOpsMap(kv, first, rec.proofLevel, 1);
        assert [] + first == first;
      }
  }

  lemma UpsertCountersAgree(keysOf: KeyFunction, kv: KV, records: map<string, LocalRecord>, rec: LocalRecord)
    requires Separating(keysOf) && Agrees(keysOf, kv, records)
    ensures OnlyCounters(UpsertMap(kv, rec))
    ensures CountersAgree(Replaced(keysOf, kv, rec, UpsertMap(kv, rec)), records[rec.recordID := rec])
  {
    LookupIs(kv, records, rec.recordID);
    if rec.recordID in records {
      UpdateCounters(keysOf, kv, records, rec);
    } else {
      InsertCounters(keysOf, kv, records, rec);
    }
  }

  lemma ReplacedAgrees(keysOf: KeyFunction, kv: KV, records: map<string, LocalRecord>, rec: LocalRecord)
    requires Separating(keysOf) && Agrees(keysOf, kv, records) && rec.recordID != ""
    ensures Agrees(keysOf, Replaced(keysOf, kv, rec, UpsertMap(kv, rec)), records[rec.recordID := rec])
  {
    var counters := UpsertMap(kv, rec);
    UpsertCountersAgree(keysOf, kv, records, rec);
    ReplaceKeepsStored(keysOf, kv, records, rec, counters);
    ReplaceKeepsIndexed(keysOf, kv, records, rec, counters);
  }

  /** Inserting or replacing a record leaves the index and the counters exact. */
  lemma UpsertAgrees(keysOf: KeyFunction, kv: KV, records: map<string, LocalRecord>, rec: LocalRecord)
    requires Separating(keysOf) && Agrees(keysOf, kv, records) && rec.recordID != ""
    ensures Agrees(keysOf, Commit(kv, UpsertOps(keysOf, kv, rec)), records[rec.recordID := rec])
  {
    UpsertMapStaged(kv, rec);
    CommitReplace(keysOf, kv, rec, UpsertCounters(kv, rec));
    ReplacedAgrees(keysOf, kv, records, rec);
  }

  /** Deleting a record leaves the index and the counters exact. */
  lemma DeleteAgrees(keysOf: KeyFunction, kv: KV, records: map<string, LocalRecord>, id: string)
    requires Separating(keysOf) && Agrees(keysOf, kv, records) && id in records
    ensures Agrees(keysOf, Commit(kv, DeleteOps(keysOf, kv, records[id], id)), records - {id})
  {
    var was := records[id];
    RemoveCounters(keysOf, kv, records, id);
    LevelOpsMap(kv, [CounterOp(kv, COUNT_ALL, -1)], was.proofLevel, -1);
    CommitOne(CounterOp(kv, COUNT_ALL, -1));
    var counters := TotalMap(kv, -1) + LevelMap(kv, was.proofLevel, -1);
    CommitDelete(keysOf, kv, was, id);
    RemoveKeepsStored(keysOf, kv, records, id, counters);
    RemoveKeepsIndexed(keysOf, kv, records, id, counters);
  }

  // ---------- importing many records ----------

  function PutAll(records: map<string, LocalRecord>, recs: seq<LocalRecord>): map<string, LocalRecord>
    decreases |recs|
  {
    if recs == [] then records
    else PutAll(if recs[0].recordID == "" then records else records[recs[0].recordID := recs[0]], recs[1..])
  }

  /** One chunk of an import. Every record is looked up in the store as it was before the chunk. */
  function ChunkOps(keysOf: KeyFunction, kv: KV, recs: seq<LocalRecord>): seq<Op>
    decreases |recs|
  {
    if recs == [] then [] else ImportOps(keysOf, kv, recs[0]) + ChunkOps(keysOf, kv, recs[1..])
  }

  /** A record without an ID is skipped. */
  function ImportOps(keysOf: KeyFunction, kv: KV, rec: LocalRecord): seq<Op> {
    if rec.recordID == "" then [] else ReplaceOps(keysOf, kv, rec, [])
  }

  lemma ChunkStep(keysOf: KeyFunction, kv: KV, recs: seq<LocalRecord>, i: nat, ops: seq<Op>)
    requires i < |recs|
    ensures ops + ChunkOps(keysOf, kv, recs[i..])
         == (ops + ImportOps(keysOf, kv, recs[i])) + ChunkOps(keysOf, kv, recs[i + 1..])
  {
    assert recs[i..][1..] == recs[i + 1..];
  }

  ghost predicate DistinctIDs(recs: seq<LocalRecord>) {
    forall i, j :: 0 <= i < j < |recs| && recs[i].recordID == recs[j].recordID ==> recs[i].recordID == ""
  }

  /** The store still holds for these records what it held when the chunk began. */
  ghost predicate SameLookups(kv0: KV, kv: KV, recs: seq<LocalRecord>) {
    forall rec <- recs :: Lookup(kv, rec.recordID) == Lookup(kv0, rec.recordID)
  }

  predicate IsRecord(k: string) { "rec/" <= k }

  predicate SameAt(kv: KV, kv': KV, k: string) {
    (k in kv <==> k in kv') && (k in kv ==> kv'[k] == kv[k])
  }

  /** Outside records and index entries nothing changed. */
  ghost predicate Untouched(kv: KV, kv': KV) {
    forall k :: !IsRecord(k) && !IsIndex(k) ==> SameAt(kv, kv', k)
  }

  lemma ReplacedUntouched(keysOf: KeyFunction, kv: KV, rec: LocalRecord)
    requires Separating(keysOf)
    ensures Untouched(kv, Replaced(keysOf, kv, rec, map[]))
  {
    forall k | !IsRecord(k) && !IsIndex(k) ensures SameAt(kv, Replaced(keysOf, kv, rec, map[]), k) {
      var was := Lookup(kv, rec.recordID);
      assert k in keysOf(rec) ==> IsIndex(k);
      if was.Some? { assert k in keysOf(was.value) ==> IsIndex(k); }
      assert IsRecord(RecordKey(rec.recordID));
      ReplacedAt(keysOf, kv, rec, map[], k);
    }
  }

  /** Whatever changes outside records and index entries, the index agreement stays. */
  lemma IndexFrame(keysOf: KeyFunction, kv: KV, kv': KV, records: map<string, LocalRecord>)
    requires Separating(keysOf) && IndexAgrees(keysOf, kv, records)
    requires forall k :: IsRecord(k) || IsIndex(k) ==> SameAt(kv, kv', k)
    ensures IndexAgrees(keysOf, kv', records)
  {
    forall id: string ensures SameAt(kv, kv', RecordKey(id)) {
      assert IsRecord(RecordKey(id));
    }
    forall id | id in records ensures Holds(kv', RecordKey(id), Rec(records[id])) {
      assert Holds(kv, RecordKey(id), Rec(records[id])) && SameAt(kv, kv', RecordKey(id));
    }
    forall id | RecordKey(id) in kv' ensures id in records {
      assert SameAt(kv, kv', RecordKey(id));
    }
    forall id, k | id in records && k in keysOf(records[id]) ensures Holds(kv', k, Pointer(id)) {
      assert Holds(kv, k, Pointer(id)) && IsIndex(k);
      assert SameAt(kv, kv', k);
    }
    forall k | k in kv' && IsIndex(k) ensures PointsBack(keysOf, kv', records, k) {
      assert SameAt(kv, kv', k);
      assert PointsBack(keysOf, kv, records, k);
    }
  }

  lemma ReplaceOneOfChunk(keysOf: KeyFunction, kv0: KV, kv: KV, records: map<string, LocalRecord>, rec: LocalRecord)
    requires Separating(keysOf) && IndexAgrees(keysOf, kv, records) && rec.recordID != ""
    requires Lookup(kv, rec.recordID) == Lookup(kv0, rec.recordID)
    ensures var kv' := Commit(kv, ReplaceOps(keysOf, kv0, rec, []));
            && IndexAgrees(keysOf, kv', records[rec.recordID := rec])
            && Untouched(kv, kv')
            && forall id :: id != rec.recordID ==> Lookup(kv', id) == Lookup(kv, id)
  {
    assert ReplaceOps(keysOf, kv0, rec, []) == ReplaceOps(keysOf, kv, rec, []);
    CommitReplace(keysOf, kv, rec, []);
    var kv' := Replaced(keysOf, kv, rec, map[]);
    ReplaceKeepsStored(keysOf, kv, records, rec, map[]);
    ReplaceKeepsIndexed(keysOf, kv, records, rec, map[]);
    ReplacedUntouched(keysOf, kv, rec);
    forall id | id != rec.recordID ensures Lookup(kv', id) == Lookup(kv, id) {
      ReplacedRecord(keysOf, kv, rec, map[], id);
    }
  }

  lemma ChunkTail(kv0: KV, kv: KV, kv': KV, recs: seq<LocalRecord>)
    requires recs != [] && recs[0].recordID != "" && DistinctIDs(recs) && SameLookups(kv0, kv, recs)
    requires forall id :: id != recs[0].recordID ==> Lookup(kv', id) == Lookup(kv, id)
    ensures DistinctIDs(recs[1..]) && SameLookups(kv0, kv', recs[1..])
  {
    forall r | r in recs[1..] ensures Lookup(kv', r.recordID) == Lookup(kv0, r.recordID) {
      assert r in recs;
    }
  }

  lemma UntouchedTwice(a: KV, b: KV, c: KV)
    requires Untouched(a, b) && Untouched(b, c)
    ensures Untouched(a, c)
  {
    forall k | !IsRecord(k) && !IsIndex(k) ensures SameAt(a, c, k) {
      assert SameAt(a, b, k) && SameAt(b, c, k);
    }
  }

  /** A chunk of distinct records is imported as if one by one. */
  lemma {:induction false} ChunkAgrees(keysOf: KeyFunction, kv0: KV, kv: KV, records: map<string, LocalRecord>,
                                       recs: seq<LocalRecord>)
    requires Separating(keysOf) && IndexAgrees(keysOf, kv, records) && DistinctIDs(recs) && SameLookups(kv0, kv, recs)
    ensures IndexAgrees(keysOf, Commit(kv, ChunkOps(keysOf, kv0, recs)), PutAll(records, recs))
    ensures Untouched(kv, Commit(kv, ChunkOps(keysOf, kv0, recs)))
    decreases |recs|
  {
    if recs != [] {
      var rec, ops := recs[0], ImportOps(keysOf, kv0, recs[0]);
      var kv', records' := Commit(kv, ops), if rec.recordID == "" then records else records[rec.recordID := rec];
      CommitConcat(kv, ops, ChunkOps(keysOf, kv0, recs[1..]));
      ImportOne(keysOf, kv0, kv, records, recs);
      ChunkAgrees(keysOf, kv0, kv', records', recs[1..]);
      UntouchedTwice(kv, kv', Commit(kv', ChunkOps(keysOf, kv0, recs[1..])));
    }
  }

  lemma ImportOne(keysOf: KeyFunction, kv0: KV, kv: KV, records: map<string, LocalRecord>, recs: seq<LocalRecord>)
    requires Separating(keysOf) && IndexAgrees(keysOf, kv, records) && DistinctIDs(recs)
             && SameLookups(kv0, kv, recs) && recs != []
    ensures var rec := recs[0];
            var kv', records' := Commit(kv, ImportOps(keysOf, kv0, rec)), if rec.recordID == "" then records
                                 else records[rec.recordID := rec];
            IndexAgrees(keysOf, kv', records') && Untouched(kv, kv') && DistinctIDs(recs[1..])
            && SameLookups(kv0, kv', recs[1..])
  {
    var rec := recs[0];
    if rec.recordID != "" {
      ReplaceOneOfChunk(keysOf, kv0, kv, records, rec);
      ChunkTail(kv0, kv, Commit(kv, ImportOps(keysOf, kv0, rec)), recs);
    }
  }

  // ---------- rebuilding the counters ----------

  /** The IDs of the listed records at a level. */
  ghost function LevelIDs(recs: seq<LocalRecord>, level: string): set<string> {
    set r | r in recs && r.proofLevel == level :: r.recordID
  }

  function CountIn(counts: map<string, nat>, key: string): nat {
    if key in counts then counts[key] else 0
  }

  /** The counts are those of the listed records. */
  ghost predicate CountsOf(recs: seq<LocalRecord>, counts: map<string, nat>) {
    && CountIn(counts, COUNT_ALL) == |recs|
    && (forall l :: l != "" ==> CountIn(counts, LevelCountKey(l)) == |LevelIDs(recs, l)|)
    && (forall k <- counts :: IsCounter(k))
  }

  lemma CountsStep(recs: seq<LocalRecord>, rec: LocalRecord, l: string)
    requires forall r <- recs :: r.recordID != rec.recordID
    ensures |LevelIDs(recs + [rec], l)| == |LevelIDs(recs, l)| + if rec.proofLevel == l then 1 else 0
  {
    if rec.proofLevel == l {
      assert LevelIDs(recs + [rec], l) == LevelIDs(recs, l) + {rec.recordID};
      assert rec.recordID !in LevelIDs(recs, l);
    } else {
      assert LevelIDs(recs + [rec], l) == LevelIDs(recs, l);
    }
  }

  function CountMap(counts: map<string, nat>): KV {
    map k <- counts :: Count(counts[k])
  }

  ghost predicate AllCounters(kv: KV, stale: set<string>) {
    forall k :: k in stale <==> k in kv && IsCounter(k)
  }

  lemma RebuiltIndex(keysOf: KeyFunction, kv: KV, records: map<string, LocalRecord>, counts: map<string, nat>,
                     stale: set<string>)
    requires Separating(keysOf) && IndexAgrees(keysOf, kv, records) && AllCounters(kv, stale)
    requires forall k <- counts :: IsCounter(k)
    ensures IndexAgrees(keysOf, (kv - stale) + CountMap(counts), records)
  {
    var kv' := (kv - stale) + CountMap(counts);
    forall k | IsRecord(k) || IsIndex(k) ensures SameAt(kv, kv', k) {
      assert k[0] != 'c';
    }
    IndexFrame(keysOf, kv, kv', records);
  }

  lemma RebuiltCounter(kv: KV, counts: map<string, nat>, stale: set<string>, key: string)
    requires AllCounters(kv, stale) && IsCounter(key)
    ensures Counter((kv - stale) + CountMap(counts), key) == CountIn(counts, key)
  {}

  /** Dropping every counter and writing the counts of all records makes the counters exact. */
  lemma RebuiltAgrees(keysOf: KeyFunction, kv: KV, records: map<string, LocalRecord>, recs: seq<LocalRecord>,
                      counts: map<string, nat>, stale: set<string>)
    requires Separating(keysOf) && IndexAgrees(keysOf, kv, records) && CountsOf(recs, counts) && AllCounters(kv, stale)
    requires |recs| == |records| && forall l :: LevelIDs(recs, l) == AtLevel(records, l)
    ensures Agrees(keysOf, (kv - stale) + CountMap(counts), records)
  {
    RebuiltIndex(keysOf, kv, records, counts, stale);
    RebuiltCounters(kv, records, recs, counts, stale);
  }

  lemma RebuiltCounters(kv: KV, records: map<string, LocalRecord>, recs: seq<LocalRecord>, counts: map<string, nat>,
                        stale: set<string>)
    requires CountsOf(recs, counts) && AllCounters(kv, stale)
    requires |recs| == |records| && forall l :: LevelIDs(recs, l) == AtLevel(records, l)
    ensures CountersAgree((kv - stale) + CountMap(counts), records)
  {
    RebuiltCounter(kv, counts, stale, COUNT_ALL);
    forall l | l != "" ensures Counter((kv - stale) + CountMap(counts), LevelCountKey(l)) == |AtLevel(records, l)| {
      LevelKeyArea(l);
      RebuiltCounter(kv, counts, stale, LevelCountKey(l));
    }
  }
}
