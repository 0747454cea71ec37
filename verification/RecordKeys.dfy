/**
  The keys of the desktop record store. A record is stored once under its own key and is pointed to
  from one key per index slot; every index key ends in a suffix that sorts by time, newest first.
*/
module RecordKeys {
  import opened Text
  import opened RecordSearch

  const MAX_SORT: int := 0x7FFF_FFFF_FFFF_FFFF

  const COUNT_ALL := "cnt/all"
  const META_MIGRATED := "meta/migrated-jsonl-v1"

  function RecordKey(id: string): string {
    "rec/" + id
  }

  function Part(value: string): string {
    if value == "" then "_" else Encode(Utf8(value))
  }

  function LevelCountKey(level: string): string {
    "cnt/" + "level/" + Part(level)
  }

  // ---------- the sort suffix ----------

  /** 64-bit two's complement. */
  function Wrap64(x: int): int64 {
    (x + 0x8000_0000_0000_0000) % 0x1_0000_0000_0000_0000 - 0x8000_0000_0000_0000
  }

  function TimeUnixN(lib: Library, unixNano: int64, iso: string): int64 {
    if unixNano != 0 then unixNano
    else if iso == "" then 0
    else lib.parseTime(iso)
  }

  function SortUnixN(lib: Library, rec: LocalRecord): int64 {
    var submitted := TimeUnixN(lib, rec.submittedAtUnixN, rec.submittedAt);
    if submitted != 0 then submitted else TimeUnixN(lib, rec.lastSyncedAtUnixN, rec.lastSyncedAt)
  }

  /** The times of a record in the order of precedence: submission, then last synchronisation, each as a
      number and then as text; zero for none. */
  function Times(lib: Library, rec: LocalRecord): seq<int64> {
    [rec.submittedAtUnixN, if rec.submittedAt == "" then 0 else lib.parseTime(rec.submittedAt),
     rec.lastSyncedAtUnixN, if rec.lastSyncedAt == "" then 0 else lib.parseTime(rec.lastSyncedAt)]
  }

  /** A record is sorted by the first of its times that is set. */
  lemma SortedByFirst(lib: Library, rec: LocalRecord, i: nat)
    requires i < 4 && forall j | 0 <= j < i :: Times(lib, rec)[j] == 0
    ensures Times(lib, rec)[i] != 0 ==> SortUnixN(lib, rec) == Times(lib, rec)[i]
    ensures i == 3 && Times(lib, rec)[i] == 0 ==> SortUnixN(lib, rec) == 0
  {
    var times := Times(lib, rec);
    assert i > 0 ==> times[0] == 0;
    assert i > 1 ==> times[1] == 0;
    assert i > 2 ==> times[2] == 0;
  }

  /** The distance to the end of time; a time before 1970 wraps around and is clamped to zero. */
  function SortKey(lib: Library, rec: LocalRecord): (k: int64)
    ensures 0 <= k
    ensures k == if SortUnixN(lib, rec) < 0 then 0 else MAX_SORT - SortUnixN(lib, rec)
  {
    var k := Wrap64(MAX_SORT - SortUnixN(lib, rec));
    if k < 0 then 0 else k
  }

  function Suffix(lib: Library, rec: LocalRecord): string {
    Digits(SortKey(lib, rec), 20) + "/" + rec.recordID
  }

  lemma SuffixInjective(lib: Library, a: LocalRecord, b: LocalRecord)
    requires Suffix(lib, a) == Suffix(lib, b)
    ensures a.recordID == b.recordID
  {
    assert Suffix(lib, a)[21..] == a.recordID;
    assert Suffix(lib, b)[21..] == b.recordID;
  }

  /** Where a key stands among keys with the same prefix. */
  predicate Before(s: string, t: string) {
    Less(Utf8(s), Utf8(t))
  }

  lemma Pow10Bound()
    ensures MAX_SORT < Pow10(20)
  {
    assert Pow10(10) == 10_000_000_000 by { assert Pow10(5) == 100_000; }
    assert Pow10(20) == 10_000_000_000 * Pow10(10) by { Pow10Adds(10, 10); }
  }

  lemma {:induction false} Pow10Adds(a: nat, b: nat)
    ensures Pow10(a + b) == Pow10(a) * Pow10(b)
  {
    if a > 0 { Pow10Adds(a - 1, b); }
  }

  /** The time a record is sorted by: one from before 1970 counts as the latest there is. */
  function SortTime(lib: Library, rec: LocalRecord): int {
    if SortUnixN(lib, rec) < 0 then MAX_SORT else SortUnixN(lib, rec)
  }

  lemma SmallerKeyFirst(lib: Library, a: LocalRecord, b: LocalRecord)
    requires SortKey(lib, a) < SortKey(lib, b)
    ensures Before(Suffix(lib, a), Suffix(lib, b))
  {
    Pow10Bound();
    DigitsOrder(SortKey(lib, a), SortKey(lib, b), 20);
    var x, y := Digits(SortKey(lib, a), 20), Digits(SortKey(lib, b), 20);
    assert Suffix(lib, a) == x + ("/" + a.recordID) && Suffix(lib, b) == y + ("/" + b.recordID);
    Utf8Concat(x, "/" + a.recordID);
    Utf8Concat(y, "/" + b.recordID);
    DivergeLess(Utf8(x), Utf8(y), Utf8("/" + a.recordID), Utf8("/" + b.recordID));
  }

  lemma SameKeyByID(lib: Library, a: LocalRecord, b: LocalRecord)
    requires SortKey(lib, a) == SortKey(lib, b)
    ensures Before(Suffix(lib, a), Suffix(lib, b)) <==> Before(a.recordID, b.recordID)
  {
    var p := Digits(SortKey(lib, a), 20) + "/";
    Utf8Concat(p, a.recordID);
    Utf8Concat(p, b.recordID);
    LessCommon(Utf8(p), Utf8(a.recordID), Utf8(b.recordID));
  }

  /** Later records come first, those of one time by ID: the fixed width makes byte order agree with
      the numeric order, over all times. */
  lemma NewestFirst(lib: Library, a: LocalRecord, b: LocalRecord)
    ensures Before(Suffix(lib, a), Suffix(lib, b)) <==>
              || SortTime(lib, a) > SortTime(lib, b)
              || (SortTime(lib, a) == SortTime(lib, b) && Before(a.recordID, b.recordID))
  {
    if SortKey(lib, a) < SortKey(lib, b) {
      SmallerKeyFirst(lib, a, b);
    } else if SortKey(lib, b) < SortKey(lib, a) {
      SmallerKeyFirst(lib, b, a);
      NotBoth(Suffix(lib, a), Suffix(lib, b));
    } else {
      SameKeyByID(lib, a, b);
    }
  }

  lemma NotBoth(s: string, t: string)
    requires Before(t, s)
    ensures !Before(s, t)
  {
    LessIrreflexive(Utf8(s));
    if Before(s, t) {
      LessTransitive(Utf8(s), Utf8(t), Utf8(s));
    }
  }

  // ---------- index slots ----------

  /** One place in the index a record can be listed under. */
  datatype Slot =
    | ByTime
    | ByLevel(value: string)
    | ByBatch(value: string)
    | ByTenant(value: string)
    | ByClient(value: string)
    | ByHash(value: string)
    | ByToken(value: string)

  function Family(slot: Slot): string {
    match slot
    case ByTime => "idx/time/"
    case ByLevel(_) => "idx/level/"
    case ByBatch(_) => "idx/batch/"
    case ByTenant(_) => "idx/tenant/"
    case ByClient(_) => "idx/client/"
    case ByHash(_) => "idx/hash/"
    case ByToken(_) => "idx/token/"
  }

  /** The middle of the key; a content hash is already plain hexadecimal. */
  function Middle(slot: Slot): string
    requires !slot.ByTime?
  {
    if slot.ByHash? then slot.value else Part(slot.value)
  }

  function Prefix(slot: Slot): string {
    if slot.ByTime? then Family(slot) else Family(slot) + (Middle(slot) + "/")
  }

  function Strip(prefix: string, v: string): string { if prefix <= v then v[|prefix|..] else v }

  function TrimContentHashPrefix(lib: Library, value: string): string {
    Strip("sm3:", Strip("sha256:", Lower(lib, TrimSpace(lib, value))))
  }

  predicate LooksLikeContentHash(lib: Library, value: string) {
    var v := TrimContentHashPrefix(lib, value);
    |v| == 64 && forall i :: 0 <= i < |v| ==> '0' <= v[i] <= '9' || 'a' <= v[i] <= 'f'
  }

  predicate HexHash(h: string) {
    |h| == 64 && forall i :: 0 <= i < |h| ==> '0' <= h[i] <= '9' || 'a' <= h[i] <= 'f'
  }

  /** What a content hash is: 64 hexadecimal digits, in lower case and without the blanks around them, after
      "sha256:" or "sm3:" or both in this order or neither. */
  lemma ContentHashExactly(lib: Library, value: string, h: string)
    ensures LooksLikeContentHash(lib, value) && TrimContentHashPrefix(lib, value) == h <==>
              HexHash(h) && var v := Lower(lib, TrimSpace(lib, value));
              v == h || v == "sha256:" + h || v == "sm3:" + h || v == "sha256:" + ("sm3:" + h)
  {
    var v := Lower(lib, TrimSpace(lib, value));
    var sha, sm := "sha256:", "sm3:";
    if HexHash(h) {
      assert h[0] != 's' && sha[1] != (sm + h)[1];
      StripsTwo(sha, sm, v, h);
    }
  }

  lemma StripsTo(prefix: string, v: string, h: string)
    requires !(prefix <= h)
    ensures Strip(prefix, v) == h <==> v == h || v == prefix + h
  {
    if prefix <= v {
      assert v == prefix + v[|prefix|..];
    }
    assert (prefix + h)[|prefix|..] == h;
  }

  lemma StripsTwo(p: string, q: string, v: string, h: string)
    requires !(p <= h) && !(q <= h) && !(p <= q + h)
    ensures Strip(q, Strip(p, v)) == h <==> v == h || v == p + h || v == q + h || v == p + (q + h)
  {
    StripsTo(q, Strip(p, v), h);
    StripsTo(p, v, h);
    StripsTo(p, v, q + h);
  }

  function SlotIf(value: string, slot: Slot): seq<Slot> {
    if value == "" then [] else [slot]
  }

  function TokenSlots(tokens: seq<string>): seq<Slot> {
    seq(|tokens|, i requires 0 <= i < |tokens| => ByToken(tokens[i]))
  }

  /** The slots a record is listed under. */
  function Slots(lib: Library, rec: LocalRecord): seq<Slot> {
    FixedSlots(lib, rec) + TokenSlots(Tokens(lib, rec))
  }

  /** Those that do not come from search tokens. */
  function FixedSlots(lib: Library, rec: LocalRecord): seq<Slot> {
    NamedSlots(rec) + (if LooksLikeContentHash(lib, rec.contentHashHex)
                       then [ByHash(TrimContentHashPrefix(lib, rec.contentHashHex))] else [])
  }

  function NamedSlots(rec: LocalRecord): seq<Slot> {
    [ByTime]
    + SlotIf(rec.proofLevel, ByLevel(rec.proofLevel))
    + SlotIf(rec.batchID, ByBatch(rec.batchID))
    + SlotIf(rec.tenantID, ByTenant(rec.tenantID))
    + SlotIf(rec.clientID, ByClient(rec.clientID))
  }

  lemma NamedSlotsAre(rec: LocalRecord, slot: Slot)
    ensures slot in NamedSlots(rec) <==>
              match slot {
                case ByTime => true
                case ByLevel(v) => v != "" && v == rec.proofLevel
                case ByBatch(v) => v != "" && v == rec.batchID
                case ByTenant(v) => v != "" && v == rec.tenantID
                case ByClient(v) => v != "" && v == rec.clientID
                case _ => false
              }
  {
  }

  lemma TokenSlotsAre(tokens: seq<string>, slot: Slot)
    ensures slot in TokenSlots(tokens) <==> slot.ByToken? && slot.value in tokens
  {
    if slot.ByToken? && slot.value in tokens {
      var i :| 0 <= i < |tokens| && tokens[i] == slot.value;
      assert TokenSlots(tokens)[i] == slot;
    }
  }

  lemma FixedSlotsAre(lib: Library, rec: LocalRecord, slot: Slot)
    ensures slot in FixedSlots(lib, rec) <==>
              match slot {
                case ByTime => true
                case ByLevel(v) => v != "" && v == rec.proofLevel
                case ByBatch(v) => v != "" && v == rec.batchID
                case ByTenant(v) => v != "" && v == rec.tenantID
                case ByClient(v) => v != "" && v == rec.clientID
                case ByHash(v) => LooksLikeContentHash(lib, rec.contentHashHex)
                                  && v == TrimContentHashPrefix(lib, rec.contentHashHex)
                case ByToken(v) => false
              }
  {
    NamedSlotsAre(rec, slot);
  }

  /** What membership in Slots means, slot by slot. */
  lemma SlotsAre(lib: Library, rec: LocalRecord, slot: Slot)
    ensures slot in Slots(lib, rec) <==>
              match slot {
                case ByTime => true
                case ByLevel(v) => v != "" && v == rec.proofLevel
                case ByBatch(v) => v != "" && v == rec.batchID
                case ByTenant(v) => v != "" && v == rec.tenantID
                case ByClient(v) => v != "" && v == rec.clientID
                case ByHash(v) => LooksLikeContentHash(lib, rec.contentHashHex)
                                  && v == TrimContentHashPrefix(lib, rec.contentHashHex)
                case ByToken(v) => v in Tokens(lib, rec)
              }
  {
    TokenSlotsAre(Tokens(lib, rec), slot);
    FixedSlotsAre(lib, rec, slot);
  }

  function IndexKeys(lib: Library, rec: LocalRecord): (keys: seq<string>)
    ensures rec.recordID == "" ==> keys == []
    ensures rec.recordID != "" ==> |keys| == |Slots(lib, rec)|
    ensures forall i :: 0 <= i < |keys| ==> keys[i] == Prefix(Slots(lib, rec)[i]) + Suffix(lib, rec)
  {
    if rec.recordID == "" then []
    else
      var slots := Slots(lib, rec);
      seq(|slots|, i requires 0 <= i < |slots| => Prefix(slots[i]) + Suffix(lib, rec))
  }

  lemma IndexKeysAre(lib: Library, rec: LocalRecord, key: string)
    ensures key in IndexKeys(lib, rec) <==>
              rec.recordID != "" && exists slot <- Slots(lib, rec) :: key == Prefix(slot) + Suffix(lib, rec)
  {
    var slots, keys := Slots(lib, rec), IndexKeys(lib, rec);
    if rec.recordID != "" {
      if slot :| slot in slots && key == Prefix(slot) + Suffix(lib, rec) {
        var i :| 0 <= i < |slots| && slots[i] == slot;
        assert keys[i] == key;
      }
      if key in keys {
        var i :| 0 <= i < |keys| && keys[i] == key;
        assert slots[i] in slots;
      }
    }
  }

  // ---------- keys of different slots and records never meet ----------

  predicate NoSlash(s: string) {
    forall i :: 0 <= i < |s| ==> s[i] != '/'
  }

  /** A slot whose middle holds no slash: every slot of a record, and every slot a listing asks for. */
  predicate Proper(slot: Slot) {
    slot.ByHash? ==> NoSlash(slot.value)
  }

  lemma SlotsProper(lib: Library, rec: LocalRecord, slot: Slot)
    requires slot in Slots(lib, rec)
    ensures Proper(slot)
  {
    SlotsAre(lib, rec, slot);
  }

  lemma PartInjective(a: string, b: string)
    requires Part(a) == Part(b)
    ensures a == b
  {
    if a != "" && b != "" {
      DecodeEncode(Utf8(a));
      DecodeEncode(Utf8(b));
      Utf8Injective(a, b);
    } else {
      EncodeLong(Utf8(a + b));
      assert a + b == a || a + b == b;
    }
  }

  lemma EncodeLong(b: seq<byte>)
    ensures b != [] ==> |Encode(b)| >= 2
  {}

  lemma MiddleNoSlash(slot: Slot)
    requires Proper(slot) && !slot.ByTime?
    ensures NoSlash(Middle(slot))
  {}

  lemma FirstSlash(a: string, b: string, t: string)
    requires NoSlash(a) && NoSlash(b) && a + "/" <= b + "/" + t
    ensures a == b
  {
    var l, r := a + "/", b + "/" + t;
    assert forall i :: 0 <= i < |l| ==> l[i] == r[i];
    assert l[|a|] == '/' && r[|b|] == '/';
    assert |a| == |b|;
    assert forall i :: 0 <= i < |a| ==> a[i] == l[i] && b[i] == r[i];
  }

  lemma SameFamily(x: Slot, y: Slot, t: string)
    requires Prefix(x) <= Prefix(y) + t
    ensures Family(x)[4] == Family(y)[4] && Family(x)[5] == Family(y)[5]
  {
    var l, r := Prefix(x), Prefix(y) + t;
    assert l[4] == r[4] && l[5] == r[5];
    assert l[4] == Family(x)[4] && l[5] == Family(x)[5];
    assert r[4] == Family(y)[4] && r[5] == Family(y)[5];
  }

  /** A key of one slot never starts with the prefix of another. */
  lemma PrefixSeparates(x: Slot, y: Slot, t: string)
    requires Proper(x) && Proper(y) && Prefix(x) <= Prefix(y) + t
    ensures x == y
  {
    SameFamily(x, y, t);
    FamilyDiffers(x, y);
    if !x.ByTime? {
      MiddleNoSlash(x);
      MiddleNoSlash(y);
      DropCommon(Family(x), Middle(x) + "/", Middle(y) + "/", t);
      FirstSlash(Middle(x), Middle(y), t);
      if !x.ByHash? { PartInjective(x.value, y.value); }
    }
  }

  lemma DropCommon(p: string, a: string, b: string, t: string)
    requires p + a <= (p + b) + t
    ensures a <= b + t
  {
    assert (p + a)[|p|..] == a && ((p + b) + t)[|p|..] == b + t;
  }

  lemma FamilyDiffers(x: Slot, y: Slot)
    requires Family(x)[4] == Family(y)[4] && Family(x)[5] == Family(y)[5]
    ensures Family(x) == Family(y)
    ensures x.ByTime? == y.ByTime? && x.ByLevel? == y.ByLevel? && x.ByBatch? == y.ByBatch? && x.ByTenant? == y.ByTenant?
    ensures x.ByClient? == y.ByClient? && x.ByHash? == y.ByHash? && x.ByToken? == y.ByToken?
  {}

  /** Two records share an index key only if they have the same ID. */
  lemma KeysDisjoint(lib: Library, a: LocalRecord, b: LocalRecord, key: string)
    requires key in IndexKeys(lib, a) && key in IndexKeys(lib, b)
    ensures a.recordID == b.recordID
  {
    IndexKeysAre(lib, a, key);
    IndexKeysAre(lib, b, key);
    var x :| x in Slots(lib, a) && key == Prefix(x) + Suffix(lib, a);
    var y :| y in Slots(lib, b) && key == Prefix(y) + Suffix(lib, b);
    SlotsProper(lib, a, x);
    SlotsProper(lib, b, y);
    PrefixSeparates(x, y, Suffix(lib, b));
    assert key[|Prefix(x)|..] == Suffix(lib, a) && key[|Prefix(y)|..] == Suffix(lib, b);
    SuffixInjective(lib, a, b);
  }

  lemma LevelKeyInjective(a: string, b: string)
    requires LevelCountKey(a) == LevelCountKey(b)
    ensures a == b
  {
    assert LevelCountKey(a)[10..] == Part(a) && LevelCountKey(b)[10..] == Part(b);
    PartInjective(a, b);
  }
}
