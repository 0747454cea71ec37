/**
  Reading an index slot in key order, and why what it visits is exactly the ordered list of hits.
*/
module RecordScan {
  import opened Wrappers
  import opened Text
  import opened RecordSearch
  import opened RecordKeys
  import opened RecordStore
  import opened RecordPages

  ghost predicate Increasing(keys: seq<string>) {
    forall i, j :: 0 <= i < j < |keys| ==> Before(keys[i], keys[j])
  }

  /** The keys an iterator over the prefix yields: all of them in order, after the cursor if there is one. */
  ghost predicate ScanOf(kv: KV, prefix: string, cursor: seq<int>, keys: seq<string>) {
    && Increasing(keys)
    && forall k :: k in keys <==> k in kv && prefix <= k && (cursor == [] || Less(Utf8(prefix) + cursor, Utf8(k)))
  }

  // ---------- the iterator ----------

  method MinKey(keys: set<string>) returns (least: string)
    requires keys != {}
    ensures least in keys && forall k <- keys :: k == least || Before(least, k)
  {
    least :| least in keys;
    var rest := keys - {least};
    while rest != {}
      invariant least in keys && rest <= keys
      invariant forall k <- keys - rest :: k == least || Before(least, k)
      decreases rest
    {
      var k :| k in rest;
      rest := rest - {k};
      if Less(Utf8(k), Utf8(least)) {
        NewLeast(keys - rest - {k}, k, least);
        least := k;
      } else if k != least {
        KeyOrderTotal(least, k);
      }
    }
  }

  lemma NewLeast(keys: set<string>, k: string, least: string)
    requires Before(k, least) && forall x <- keys :: x == least || Before(least, x)
    ensures forall x <- keys :: Before(k, x)
  {
    forall x | x in keys && x != least ensures Before(k, x) {
      LessTransitive(Utf8(k), Utf8(least), Utf8(x));
    }
  }

  lemma KeyOrderTotal(a: string, b: string)
    requires a != b
    ensures Before(a, b) || Before(b, a)
  {
    LessTotal(Utf8(a), Utf8(b));
    if Utf8(a) == Utf8(b) { Utf8Injective(a, b); }
  }

  method SortKeys(keys: set<string>) returns (sorted: seq<string>)
    ensures Increasing(sorted) && forall k :: k in sorted <==> k in keys
  {
    sorted := [];
    var rest := keys;
    while rest != {}
      invariant rest <= keys && Increasing(sorted)
      invariant forall k :: k in sorted <==> k in keys - rest
      invariant forall i, k :: 0 <= i < |sorted| && k in rest ==> Before(sorted[i], k)
      decreases rest
    {
      var k := MinKey(rest);
      rest := rest - {k};
      sorted := sorted + [k];
    }
  }

  /** All keys between the bounds of a prefix, in order. */
  method Iterate(kv: KV, prefix: string) returns (keys: seq<string>)
    ensures ScanOf(kv, prefix, [], keys)
  {
    var lower, upper := Utf8(prefix), Utf8(prefix) + [255];
    var within := set k | k in kv && !Less(Utf8(k), lower) && Less(Utf8(k), upper);
    keys := SortKeys(within);
    forall k ensures k in within <==> k in kv && prefix <= k {
      PrefixBounds(prefix, k);
    }
  }

  /** Seeks to the first key at or after the cursor and steps over it if it is the cursor itself. */
  method Seek(kv: KV, prefix: string, cursor: seq<byte>) returns (keys: seq<string>)
    ensures ScanOf(kv, prefix, cursor, keys)
  {
    var all := Iterate(kv, prefix);
    if cursor == [] {
      return all;
    }
    var key := Utf8(prefix) + cursor;
    var n := 0;
    while n < |all| && Less(Utf8(all[n]), key)
      invariant n <= |all| && forall i :: 0 <= i < n ==> Less(Utf8(all[i]), key)
    {
      n := n + 1;
    }
    if n < |all| {
      LessTotal(Utf8(all[n]), key);
      if Utf8(all[n]) == key {
        n := n + 1;
      }
    }
    keys := all[n..];
    forall i | 0 <= i < |all| ensures Less(key, Utf8(all[i])) <==> n <= i {
      AfterSeek(all, key, n, i);
    }
    assert forall k :: k in all[n..] <==> k in all && Less(key, Utf8(k));
  }

  lemma AfterSeek(all: seq<string>, key: seq<int>, n: nat, i: nat)
    requires Increasing(all) && n <= |all| && i < |all|
    requires forall j :: 0 <= j < n ==> Less(Utf8(all[j]), key) || Utf8(all[j]) == key
    requires n < |all| ==> Less(key, Utf8(all[n]))
    ensures Less(key, Utf8(all[i])) <==> n <= i
  {
    LessIrreflexive(key);
    if i < n {
      if Less(key, Utf8(all[i])) && Less(Utf8(all[i]), key) { LessTransitive(key, Utf8(all[i]), key); }
    } else {
      if n < i { LessTransitive(key, Utf8(all[n]), Utf8(all[i])); }
    }
  }

  // ---------- what a scan visits ----------

  function Target(kv: KV, k: string): string {
    if k in kv && kv[k].Pointer? then kv[k].id else ""
  }

  type Accept = LocalRecord -> bool

  function Accepts(lib: Library, opts: PageOptions): Accept {
    rec => Matches(lib, rec, opts)
  }

  /** The records a visit of the keys in order passes on. */
  function Visited(kv: KV, keys: seq<string>, accept: Accept): seq<LocalRecord>
    decreases |keys|
  {
    if keys == [] then [] else Passed(kv, keys[0], accept) + Visited(kv, keys[1..], accept)
  }

  lemma VisitedStep(kv: KV, keys: seq<string>, accept: Accept, i: nat, seen: seq<LocalRecord>)
    requires i < |keys|
    ensures seen + Visited(kv, keys[i..], accept) ==
            (seen + Passed(kv, keys[i], accept)) + Visited(kv, keys[i + 1..], accept)
  {
    assert keys[i..][1..] == keys[i + 1..];
  }

  function Passed(kv: KV, key: string, accept: Accept): seq<LocalRecord> {
    match Lookup(kv, Target(kv, key))
    case None => []
    case Some(rec) => if accept(rec) then [rec] else []
  }

  /** Every key is the key, under this slot, of the record it points to. */
  ghost predicate KeyedUnder(lib: Library, kv: KV, records: Records, slot: Slot, keys: seq<string>) {
    forall k <- keys ::
      var id := Target(kv, k);
      && Lookup(kv, id).Some? && id in records && Lookup(kv, id).value == records[id] && records[id].recordID == id
      && slot in Slots(lib, records[id]) && k == Prefix(slot) + Suffix(lib, records[id])
  }

  lemma KeyIsUnder(lib: Library, kv: KV, records: Records, slot: Slot, k: string)
    requires IndexAgrees(KeysOf(lib), kv, records) && Proper(slot) && k in kv && Prefix(slot) <= k
    ensures KeyedUnder(lib, kv, records, slot, [k])
  {
    PrefixArea(slot);
    assert IsIndex(k);
    assert PointsBack(KeysOf(lib), kv, records, k);
    var id := kv[k].id;
    var rec := records[id];
    LookupIs(kv, records, id);
    IndexKeysAre(lib, rec, k);
    var s :| s in Slots(lib, rec) && k == Prefix(s) + Suffix(lib, rec);
    SlotsProper(lib, rec, s);
    PrefixSeparates(slot, s, Suffix(lib, rec));
  }

  lemma ScanIsUnder(lib: Library, kv: KV, records: Records, slot: Slot, cursor: seq<int>, keys: seq<string>)
    requires IndexAgrees(KeysOf(lib), kv, records) && Proper(slot) && ScanOf(kv, Prefix(slot), cursor, keys)
    ensures KeyedUnder(lib, kv, records, slot, keys)
  {
    forall k | k in keys ensures KeyedUnder(lib, kv, records, slot, [k]) {
      KeyIsUnder(lib, kv, records, slot, k);
    }
    forall k | k in keys
      ensures var id := Target(kv, k);
              && Lookup(kv, id).Some? && id in records && Lookup(kv, id).value == records[id]
              && records[id].recordID == id
              && slot in Slots(lib, records[id]) && k == Prefix(slot) + Suffix(lib, records[id])
    {
      assert KeyedUnder(lib, kv, records, slot, [k]);
      assert k in [k];
    }
  }

  /** Keys under one slot are ordered as their suffixes. */
  lemma SuffixOrder(prefix: string, s: string, t: seq<int>)
    ensures Less(Utf8(prefix) + t, Utf8(prefix + s)) <==> Less(t, Utf8(s))
    ensures Less(Utf8(prefix + s), Utf8(prefix) + t) <==> Less(Utf8(s), t)
  {
    Utf8Concat(prefix, s);
    LessCommon(Utf8(prefix), t, Utf8(s));
    LessCommon(Utf8(prefix), Utf8(s), t);
  }

  lemma {:induction false} VisitedAre(kv: KV, keys: seq<string>, accept: Accept, r: LocalRecord)
    ensures r in Visited(kv, keys, accept) <==>
              accept(r) && exists k <- keys :: Lookup(kv, Target(kv, k)) == Some(r)
    decreases |keys|
  {
    if keys != [] {
      VisitedAre(kv, keys[1..], accept, r);
      assert keys == [keys[0]] + keys[1..];
    }
  }

  lemma LaterVisited(lib: Library, kv: KV, records: Records, slot: Slot, keys: seq<string>, accept: Accept,
                     r: LocalRecord)
    requires Increasing(keys) && KeyedUnder(lib, kv, records, slot, keys) && keys != []
    requires r in Visited(kv, keys[1..], accept)
    ensures Before(Suffix(lib, records[Target(kv, keys[0])]), Suffix(lib, r))
  {
    var first := records[Target(kv, keys[0])];
    VisitedAre(kv, keys[1..], accept, r);
    var k :| k in keys[1..] && Lookup(kv, Target(kv, k)) == Some(r);
    assert k in keys && Before(keys[0], k);
    Utf8Concat(Prefix(slot), Suffix(lib, first));
    SuffixOrder(Prefix(slot), Suffix(lib, r), Utf8(Suffix(lib, first)));
  }

  lemma {:induction false} VisitedInOrder(lib: Library, kv: KV, records: Records, slot: Slot, keys: seq<string>,
                                          accept: Accept)
    requires Increasing(keys) && KeyedUnder(lib, kv, records, slot, keys)
    ensures InOrder(lib, Visited(kv, keys, accept))
    decreases |keys|
  {
    if keys != [] {
      VisitedInOrder(lib, kv, records, slot, keys[1..], accept);
      assert keys[0] in keys;
      var later := Visited(kv, keys[1..], accept);
      forall r | r in later ensures Before(Suffix(lib, records[Target(kv, keys[0])]), Suffix(lib, r)) {
        LaterVisited(lib, kv, records, slot, keys, accept, r);
      }
      FirstThenRest(lib, records[Target(kv, keys[0])], later);
    }
  }

  lemma FirstThenRest(lib: Library, first: LocalRecord, later: seq<LocalRecord>)
    requires InOrder(lib, later) && forall r <- later :: Before(Suffix(lib, first), Suffix(lib, r))
    ensures InOrder(lib, [first] + later)
  {
  }

  lemma HitVisited(lib: Library, kv: KV, records: Records, opts: PageOptions, cursor: seq<int>, keys: seq<string>,
                   r: LocalRecord)
    requires IndexAgrees(KeysOf(lib), kv, records)
    requires ScanOf(kv, Prefix(ListSlot(lib, opts).0), cursor, keys)
    requires IsHit(lib, records, opts, cursor, r)
    ensures r in Visited(kv, keys, Accepts(lib, opts))
  {
    var slot := ListSlot(lib, opts).0;
    var k := Prefix(slot) + Suffix(lib, r);
    IndexKeysAre(lib, r, k);
    assert k in KeysOf(lib)(records[r.recordID]);
    assert Holds(kv, k, Pointer(r.recordID));
    LookupIs(kv, records, r.recordID);
    if cursor != [] { SuffixOrder(Prefix(slot), Suffix(lib, r), cursor); }
    assert k in keys;
    VisitedAre(kv, keys, Accepts(lib, opts), r);
  }

  lemma VisitedHit(lib: Library, kv: KV, records: Records, opts: PageOptions, cursor: seq<int>, keys: seq<string>,
                   r: LocalRecord)
    requires ScanOf(kv, Prefix(ListSlot(lib, opts).0), cursor, keys)
    requires KeyedUnder(lib, kv, records, ListSlot(lib, opts).0, keys)
    requires r in Visited(kv, keys, Accepts(lib, opts))
    ensures IsHit(lib, records, opts, cursor, r)
  {
    var slot := ListSlot(lib, opts).0;
    VisitedAre(kv, keys, Accepts(lib, opts), r);
    var k :| k in keys && Lookup(kv, Target(kv, k)) == Some(r);
    if cursor != [] { SuffixOrder(Prefix(slot), Suffix(lib, r), cursor); }
  }

  lemma AskedSlotProper(lib: Library, opts: PageOptions)
    ensures Proper(ListSlot(lib, opts).0)
  {}

  /** Scanning the index visits exactly the ordered hits. */
  lemma ScanGivesHits(lib: Library, kv: KV, records: Records, opts: PageOptions, cursor: seq<int>, keys: seq<string>)
    requires IndexAgrees(KeysOf(lib), kv, records)
    requires ScanOf(kv, Prefix(ListSlot(lib, opts).0), cursor, keys)
    ensures HitList(lib, records, opts, cursor, Visited(kv, keys, Accepts(lib, opts)))
  {
    var slot := ListSlot(lib, opts).0;
    AskedSlotProper(lib, opts);
    ScanIsUnder(lib, kv, records, slot, cursor, keys);
    VisitedInOrder(lib, kv, records, slot, keys, Accepts(lib, opts));
    forall r ensures r in Visited(kv, keys, Accepts(lib, opts)) <==> IsHit(lib, records, opts, cursor, r) {
      if r in Visited(kv, keys, Accepts(lib, opts)) { VisitedHit(lib, kv, records, opts, cursor, keys, r); }
      if IsHit(lib, records, opts, cursor, r) { HitVisited(lib, kv, records, opts, cursor, keys, r); }
    }
  }
}
