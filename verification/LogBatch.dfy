/**
  Submitting a batch of log entries through a native batch transport: claims are built, compacted in
  place, sent, and the server's results are put back at the positions of their entries.
*/
module LogBatch {
  import opened Wrappers

  /** A signed claim; NoClaim is the zero value. */
  datatype Claim = NoClaim | Signed(content: int)

  datatype Error = BuildFailed | FromServer(code: int) | Malformed | NotSubmitted

  /** What the server returned for a claim: its record and its signed receipt; NoResponse is the zero value. */
  datatype Response = NoResponse | Response(record: string, receipt: string)

  /** The client's check of a response against the claim it submitted. */
  type Accepts = (Claim, Response) -> bool

  /** A server result with the claim it is for. */
  datatype SubmitResult = SubmitResult(claim: Claim, response: Response)

  const ZERO_RESULT := SubmitResult(NoClaim, NoResponse)

  datatype Item = Item(index: int, result: SubmitResult, err: Option<Error>)

  const ZERO_ITEM := Item(0, ZERO_RESULT, None)

  predicate Validates(accepts: Accepts, expected: Claim, result: SubmitResult) {
    result.claim.Signed? && result.claim == expected && accepts(expected, result.response)
  }

  /** What the caller gets back besides the results. */
  datatype Outcome = Ok | BatchError(submitted: nat, failed: nat) | Rejected

  /** The entries' build outcomes, None where building failed. */
  type Builds = seq<Option<Claim>>

  /** A transport: the claims it is given to its reply, None for an error. */
  type Transport = seq<Claim> -> Option<seq<Item>>

  // ---------- compaction ----------

  /** The positions of the entries that were built, in order. */
  function Originals(builds: Builds): (r: seq<nat>)
    ensures |r| <= |builds|
    ensures forall k :: 0 <= k < |r| ==> k <= r[k] < |builds| && builds[r[k]].Some?
    ensures forall j, k :: 0 <= j < k < |r| ==> r[j] < r[k]
  {
    if builds == [] then []
    else
      var n := |builds| - 1;
      Originals(builds[..n]) + (if builds[n].Some? then [n] else [])
  }

  /** No built entry is left out. */
  lemma {:induction false} BuiltListed(builds: Builds, i: nat)
    requires i < |builds| && builds[i].Some?
    ensures i in Originals(builds)
    decreases |builds|
  {
    if i < |builds| - 1 {
      BuiltListed(builds[..|builds| - 1], i);
    }
  }

  /** How many entries before `p` were built: the index at which the claim of a built entry is sent. */
  function Rank(builds: Builds, p: nat): (r: nat)
    requires p <= |builds|
  {
    if p == 0 then 0 else Rank(builds, p - 1) + (if builds[p - 1].Some? then 1 else 0)
  }

  lemma {:induction false} RankCounts(builds: Builds, p: nat)
    requires p <= |builds|
    ensures Rank(builds, p) == |Originals(builds[..p])|
  {
    if p > 0 {
      RankCounts(builds, p - 1);
      CompactStep(builds, p - 1);
    }
  }

  /** The claim of a built entry is sent at its rank. */
  lemma {:induction false} Ranked(builds: Builds, p: nat)
    requires p < |builds| && builds[p].Some?
    ensures Rank(builds, p) < |Originals(builds)| && Originals(builds)[Rank(builds, p)] == p
    ensures Claims(builds)[Rank(builds, p)] == builds[p].value
    decreases |builds|
  {
    var n := |builds| - 1;
    RankCounts(builds, p);
    if p < n {
      assert builds[..n][..p] == builds[..p];
      RankCounts(builds[..n], p);
      Ranked(builds[..n], p);
    }
  }

  lemma RankOf(builds: Builds, k: nat)
    requires k < |Originals(builds)|
    ensures Rank(builds, Originals(builds)[k]) == k
  {
    Ranked(builds, Originals(builds)[k]);
  }

  function Claims(builds: Builds): (r: seq<Claim>)
    ensures |r| == |Originals(builds)|
    ensures forall k :: 0 <= k < |r| ==> builds[Originals(builds)[k]] == Some(r[k])
  {
    if builds == [] then []
    else
      var n := |builds| - 1;
      Claims(builds[..n]) + (if builds[n].Some? then [builds[n].value] else [])
  }

  lemma CompactStep(builds: Builds, index: nat)
    requires index < |builds|
    ensures Originals(builds[..index + 1]) == Originals(builds[..index]) + (if builds[index].Some? then [index] else [])
    ensures Claims(builds[..index + 1]) ==
            Claims(builds[..index]) + (if builds[index].Some? then [builds[index].value] else [])
  {
    assert builds[..index + 1][..index] == builds[..index];
  }

  lemma Shifted(before: seq<Claim>, after: seq<Claim>, count: nat, index: nat)
    requires count <= index < |before| && after == before[count := before[index]]
    ensures after[..count + 1] == before[..count] + [before[index]] && after[index + 1..] == before[index + 1..]
  {
  }

  /** Moves the built claims to the front of the same array. */
  method Compact(builds: Builds, built: array<Claim>) returns (count: nat, originals: seq<nat>)
    requires built.Length == |builds|
    requires forall i :: 0 <= i < |builds| && builds[i].Some? ==> built[i] == builds[i].value
    modifies built
    ensures originals == Originals(builds) && count == |originals|
    ensures built[..count] == Claims(builds)
  {
    count, originals := 0, [];
    for index := 0 to |builds|
      invariant originals == Originals(builds[..index]) && count == |originals| <= index
      invariant built[..count] == Claims(builds[..index])
      invariant forall i :: index <= i < |builds| && builds[i].Some? ==> built[i] == builds[i].value
    {
      CompactStep(builds, index);
      if builds[index].Some? {
        ghost var before := built[..];
        built[count] := built[index];
        Shifted(before, built[..], count, index);
        count := count + 1;
        originals := originals + [index];
      }
    }
    assert builds[..|builds|] == builds;
  }

  // ---------- placing the results ----------

  /** An item after validation against the claim that was submitted at its index. */
  function Checked(accepts: Accepts, claims: seq<Claim>, item: Item): Item
    requires 0 <= item.index < |claims|
  {
    if item.err.None? && !Validates(accepts, claims[item.index], item.result) then item.(err := Some(Malformed))
    else item
  }

  predicate InRange(items: seq<Item>, n: nat) {
    forall j :: 0 <= j < |items| ==> 0 <= items[j].index < n
  }

  predicate Distinct(items: seq<Item>) {
    forall i, j :: 0 <= i < j < |items| ==> items[i].index != items[j].index
  }

  /** The entry at `p` holds a result only if it was built, and the result is for its own claim. */
  ghost predicate Sound(accepts: Accepts, builds: Builds, p: nat, item: Item)
    requires p < |builds|
  {
    && item.index == p
    && (item.err.None? ==> builds[p].Some? && Validates(accepts, builds[p].value, item.result))
  }

  ghost predicate Reached(items: seq<Item>, i: nat, k: int)
    requires i <= |items|
  {
    exists j :: 0 <= j < i && items[j].index == k
  }

  /** Item `j` is the last of the first `i` that names its index. */
  ghost predicate LastAt(items: seq<Item>, i: nat, j: nat)
    requires j < i <= |items|
  {
    forall l :: j < l < i ==> items[l].index != items[j].index
  }

  /** Entries that failed to build say so; an entry that is done holds a sound result. */
  ghost predicate SoundSoFar(accepts: Accepts, builds: Builds, results: seq<Item>, done: seq<bool>)
    requires |results| == |builds| == |done|
  {
    && (forall p :: 0 <= p < |builds| && builds[p].None? ==>
          done[p] && results[p] == Item(p, ZERO_RESULT, Some(BuildFailed)))
    && (forall p :: 0 <= p < |builds| && done[p] ==> Sound(accepts, builds, p, results[p]))
  }

  /** The built entries that are done are those some item has reached. */
  ghost predicate DoneSoFar(builds: Builds, items: seq<Item>, i: nat, done: seq<bool>)
    requires i <= |items| && |builds| == |done|
  {
    forall k :: 0 <= k < |Originals(builds)| ==> (done[Originals(builds)[k]] <==> Reached(items, i, k))
  }

  function Position(builds: Builds, item: Item): nat
    requires 0 <= item.index < |Originals(builds)|
  {
    Originals(builds)[item.index]
  }

  /** The result that belongs at the position of an item. */
  function Final(accepts: Accepts, builds: Builds, item: Item): Item
    requires 0 <= item.index < |Originals(builds)|
  {
    Checked(accepts, Claims(builds), item).(index := Position(builds, item))
  }

  /** At the position of an item stands the last item that names its index. */
  ghost predicate KeptSoFar(accepts: Accepts, builds: Builds, items: seq<Item>, i: nat, results: seq<Item>)
    requires i <= |items| && |results| == |builds| && InRange(items[..i], |Originals(builds)|)
  {
    forall j :: 0 <= j < i && LastAt(items, i, j) ==>
      results[Position(builds, items[j])] == Final(accepts, builds, items[j])
  }

  /** What is known after placing the first `i` items. */
  ghost predicate Placed(accepts: Accepts, builds: Builds, items: seq<Item>, i: nat, results: seq<Item>,
                         done: seq<bool>)
    requires i <= |items| && |results| == |builds| == |done| && InRange(items[..i], |Originals(builds)|)
  {
    SoundSoFar(accepts, builds, results, done) && DoneSoFar(builds, items, i, done)
    && KeptSoFar(accepts, builds, items, i, results)
  }

  lemma SoundStep(accepts: Accepts, builds: Builds, item: Item, results: seq<Item>, done: seq<bool>)
    requires |results| == |builds| == |done| && SoundSoFar(accepts, builds, results, done)
    requires 0 <= item.index < |Originals(builds)|
    ensures var p := Position(builds, item);
            SoundSoFar(accepts, builds, results[p := Final(accepts, builds, item)], done[p := true])
  {}

  lemma DoneStep(builds: Builds, items: seq<Item>, i: nat, done: seq<bool>)
    requires i < |items| && |builds| == |done| && DoneSoFar(builds, items, i, done)
    requires 0 <= items[i].index < |Originals(builds)|
    ensures DoneSoFar(builds, items, i + 1, done[Position(builds, items[i]) := true])
  {
    var p := Position(builds, items[i]);
    forall k | 0 <= k < |Originals(builds)|
      ensures done[p := true][Originals(builds)[k]] <==> Reached(items, i + 1, k)
    {
      if items[i].index == k { assert Reached(items, i + 1, k); }
      if Reached(items, i, k) { var j :| 0 <= j < i && items[j].index == k; }
    }
  }

  lemma KeptStep(accepts: Accepts, builds: Builds, items: seq<Item>, i: nat, results: seq<Item>)
    requires i < |items| && |results| == |builds| && InRange(items[..i], |Originals(builds)|)
    requires InRange(items[..i + 1], |Originals(builds)|) && KeptSoFar(accepts, builds, items, i, results)
    requires 0 <= items[i].index < |Originals(builds)|
    ensures KeptSoFar(accepts, builds, items, i + 1,
                      results[Position(builds, items[i]) := Final(accepts, builds, items[i])])
  {
    var p, last := Position(builds, items[i]), Final(accepts, builds, items[i]);
    forall j | 0 <= j < i + 1 && LastAt(items, i + 1, j)
      ensures results[p := last][Position(builds, items[j])] == Final(accepts, builds, items[j])
    {
      if j < i {
        assert LastAt(items, i, j);
        PositionsDiffer(builds, items[i], items[j]);
      }
    }
  }

  lemma PositionsDiffer(builds: Builds, a: Item, b: Item)
    requires 0 <= a.index < |Originals(builds)| && 0 <= b.index < |Originals(builds)| && a.index != b.index
    ensures Position(builds, a) != Position(builds, b)
  {
  }

  /** Each item goes to the entry its index stands for; false as soon as an index is out of range. */
  method Place(accepts: Accepts, builds: Builds, originals: seq<nat>, signed: array<Claim>, items: seq<Item>,
               results: array<Item>, done: array<bool>)
    returns (ok: bool)
    requires originals == Originals(builds) && |originals| <= signed.Length && signed[..|originals|] == Claims(builds)
    requires results.Length == |builds| == done.Length
    requires items[..0] == [] && Placed(accepts, builds, items, 0, results[..], done[..])
    modifies results, done
    ensures ok <==> InRange(items, |originals|)
    ensures ok ==> Placed(accepts, builds, items, |items|, results[..], done[..])
  {
    for i := 0 to |items|
      invariant InRange(items[..i], |originals|) && Placed(accepts, builds, items, i, results[..], done[..])
    {
      var item := items[i];
      assert items[..i + 1] == items[..i] + [item];
      if !(0 <= item.index < |originals|) {
        return false;
      }
      var p := originals[item.index];
      assert signed[item.index] == Claims(builds)[item.index];
      SoundStep(accepts, builds, item, results[..], done[..]);
      DoneStep(builds, items, i, done[..]);
      KeptStep(accepts, builds, items, i, results[..]);
      if item.err.None? && !Validates(accepts, signed[item.index], item.result) {
        item := item.(err := Some(Malformed));
      }
      results[p] := item.(index := p);
      done[p] := true;
    }
    assert items[..|items|] == items;
    ok := true;
  }

  // ---------- counting ----------

  function Failures(items: seq<Item>): (n: nat)
    ensures n <= |items|
  {
    if items == [] then 0
    else Failures(items[..|items| - 1]) + (if items[|items| - 1].err.Some? then 1 else 0)
  }

  lemma {:induction false} NoFailures(items: seq<Item>)
    ensures Failures(items) == 0 <==> forall i :: 0 <= i < |items| ==> items[i].err.None?
  {
    if items != [] { NoFailures(items[..|items| - 1]); }
  }

  method CountResults(results: array<Item>) returns (submitted: nat, failed: nat)
    ensures failed == Failures(results[..]) && submitted + failed == results.Length
  {
    submitted, failed := 0, 0;
    for i := 0 to results.Length
      invariant failed == Failures(results[..i]) && submitted + failed == i
    {
      assert results[..i + 1][..i] == results[..i];
      if results[i].err.Some? {
        failed := failed + 1;
      } else {
        submitted := submitted + 1;
      }
    }
    assert results[..results.Length] == results[..];
  }

  // ---------- the whole batch ----------

  /** Everything that has to go right: every entry builds, the transport answers with one item per
      entry, the indexes are a permutation of the positions, and every item stands up to validation. */
  ghost predicate AllGood(accepts: Accepts, builds: Builds, transport: Transport) {
    && (forall p :: 0 <= p < |builds| ==> builds[p].Some?)
    && var reply := transport(Claims(builds));
    && reply.Some? && |reply.value| == |builds| && InRange(reply.value, |Claims(builds)|) && Distinct(reply.value)
    && forall j :: 0 <= j < |reply.value| ==> Checked(accepts, Claims(builds), reply.value[j]).err.None?
  }

  lemma {:induction false} AllBuilt(builds: Builds)
    requires forall p :: 0 <= p < |builds| ==> builds[p].Some?
    ensures |Originals(builds)| == |builds| && forall p :: 0 <= p < |builds| ==> Originals(builds)[p] == p
  {
    if builds != [] { AllBuilt(builds[..|builds| - 1]); }
  }

  function Elements(s: seq<int>): set<int> { set x | x in s }

  function Below(n: nat): (r: set<int>)
    ensures forall k :: k in r <==> 0 <= k < n
    ensures |r| == n
  {
    if n == 0 then {} else Below(n - 1) + {n - 1}
  }

  // A list of n indexes that covers n positions names each of them once.

  lemma {:induction false} ImageSize(s: seq<int>)
    ensures |Elements(s)| <= |s|
  {
    if s != [] {
      ImageSize(s[1..]);
      assert Elements(s) == {s[0]} + Elements(s[1..]);
    }
  }

  lemma Pigeonhole(items: seq<Item>)
    requires InRange(items, |items|)
    requires forall k :: 0 <= k < |items| ==> Reached(items, |items|, k)
    ensures Distinct(items)
  {
    var n := |items|;
    forall a, b | 0 <= a < b < n ensures items[a].index != items[b].index {
      if items[a].index == items[b].index {
        var others := seq(n - 1, j requires 0 <= j < n - 1 => items[if j < b then j else j + 1].index);
        forall k | 0 <= k < n ensures k in others {
          assert Reached(items, n, k);
          var j :| 0 <= j < n && items[j].index == k;
          var j' := if j == b then a else j;
          assert others[if j' < b then j' else j' - 1] == k;
        }
        ImageSize(others);
        assert Below(n) <= Elements(others);
        SubsetSmaller(Below(n), Elements(others));
      }
    }
  }

  lemma SubsetSmaller(a: set<int>, b: set<int>)
    requires a <= b
    ensures |a| <= |b|
  {
    assert b == a + (b - a);
  }

  ghost predicate NoErrors(results: seq<Item>) {
    forall p :: 0 <= p < |results| ==> results[p].err.None?
  }

  /** What stands at an entry no item can have filled. */
  ghost predicate Unanswered(builds: Builds, items: seq<Item>, p: nat, item: Item)
    requires p < |builds|
  {
    && (builds[p].None? ==> item == Item(p, ZERO_RESULT, Some(BuildFailed)))
    && (builds[p].Some? && !Reached(items, |items|, Rank(builds, p)) ==>
          item == Item(p, ZERO_RESULT, Some(NotSubmitted)))
  }

  /** The results after the unreached entries are marked. */
  ghost predicate Finished(accepts: Accepts, builds: Builds, items: seq<Item>, results: seq<Item>)
    requires |results| == |builds| && InRange(items, |Originals(builds)|)
  {
    && (forall p :: 0 <= p < |builds| ==> Sound(accepts, builds, p, results[p]))
    && (forall p :: 0 <= p < |builds| ==> Unanswered(builds, items, p, results[p]))
    && (forall j :: 0 <= j < |items| && LastAt(items, |items|, j) ==>
          results[Position(builds, items[j])] == Final(accepts, builds, items[j]))
  }

  lemma GoodIfNoErrors(accepts: Accepts, builds: Builds, transport: Transport, items: seq<Item>, results: seq<Item>)
    requires |results| == |builds| && transport(Claims(builds)) == Some(items) && |items| == |Claims(builds)|
    requires InRange(items, |Originals(builds)|) && Finished(accepts, builds, items, results) && NoErrors(results)
    ensures AllGood(accepts, builds, transport)
  {
    forall p | 0 <= p < |builds| ensures builds[p].Some? { assert Sound(accepts, builds, p, results[p]); }
    AllBuilt(builds);
    forall k | 0 <= k < |items| ensures Reached(items, |items|, k) {
      RankOf(builds, k);
      assert Unanswered(builds, items, k, results[k]);
    }
    Pigeonhole(items);
    forall j | 0 <= j < |items| ensures Checked(accepts, Claims(builds), items[j]).err.None? {
      assert LastAt(items, |items|, j);
    }
  }

  lemma NoErrorsIfGood(accepts: Accepts, builds: Builds, transport: Transport, items: seq<Item>, results: seq<Item>)
    requires |results| == |builds| && transport(Claims(builds)) == Some(items) && AllGood(accepts, builds, transport)
    requires InRange(items, |Originals(builds)|) && Finished(accepts, builds, items, results)
    ensures NoErrors(results)
  {
    AllBuilt(builds);
    Covers(items);
    forall p | 0 <= p < |builds| ensures results[p].err.None? {
      assert Reached(items, |items|, p);
      var j :| 0 <= j < |items| && items[j].index == p;
      assert LastAt(items, |items|, j);
    }
  }

  /** Conversely, n different indexes below n cover all positions. */
  lemma Covers(items: seq<Item>)
    requires InRange(items, |items|) && Distinct(items)
    ensures forall k :: 0 <= k < |items| ==> Reached(items, |items|, k)
  {
    var indexes := seq(|items|, j requires 0 <= j < |items| => items[j].index);
    DistinctImage(indexes);
    assert Elements(indexes) <= Below(|items|);
    SubsetEqual(Elements(indexes), Below(|items|));
    forall k | 0 <= k < |items| ensures Reached(items, |items|, k) {
      assert k in Elements(indexes);
      var j :| 0 <= j < |indexes| && indexes[j] == k;
      assert items[j].index == k;
    }
  }

  lemma {:induction false} DistinctImage(s: seq<int>)
    requires forall i, j :: 0 <= i < j < |s| ==> s[i] != s[j]
    ensures |Elements(s)| == |s|
  {
    if s != [] {
      DistinctImage(s[1..]);
      assert Elements(s) == {s[0]} + Elements(s[1..]);
      assert s[0] !in s[1..];
    }
  }

  lemma SubsetEqual(a: set<int>, b: set<int>)
    requires a <= b && |a| == |b|
    ensures a == b
  {
    assert b == a + (b - a);
  }

  /** Marks entries that no result reached. */
  method MarkRest(accepts: Accepts, builds: Builds, items: seq<Item>, results: array<Item>, done: array<bool>)
    requires results.Length == |builds| == done.Length
    requires InRange(items, |Originals(builds)|) && items[..|items|] == items
             && Placed(accepts, builds, items, |items|, results[..], done[..])
    modifies results
    ensures Finished(accepts, builds, items, results[..])
  {
    ghost var before := results[..];
    for p := 0 to |builds|
      invariant forall q :: 0 <= q < p ==>
                results[q] == if done[q] then before[q] else Item(q, ZERO_RESULT, Some(NotSubmitted))
      invariant forall q :: p <= q < |builds| ==> results[q] == before[q]
      invariant done[..] == old(done[..])
    {
      if !done[p] {
        results[p] := Item(p, ZERO_RESULT, Some(NotSubmitted));
      }
    }
    RestMarked(accepts, builds, items, before, done[..], results[..]);
  }

  lemma RestMarked(accepts: Accepts, builds: Builds, items: seq<Item>, before: seq<Item>, done: seq<bool>,
                   results: seq<Item>)
    requires |results| == |builds| == |done| == |before|
    requires InRange(items, |Originals(builds)|) && items[..|items|] == items
             && Placed(accepts, builds, items, |items|, before, done)
    requires forall q :: 0 <= q < |builds| ==>
             results[q] == if done[q] then before[q] else Item(q, ZERO_RESULT, Some(NotSubmitted))
    ensures Finished(accepts, builds, items, results)
  {
    forall p | 0 <= p < |builds| ensures Unanswered(builds, items, p, results[p]) {
      if builds[p].Some? { Ranked(builds, p); }
    }
    forall j | 0 <= j < |items| && LastAt(items, |items|, j)
      ensures results[Position(builds, items[j])] == Final(accepts, builds, items[j])
    {
      assert Reached(items, |items|, items[j].index);
    }
  }

  /** Builds every entry once, in whatever order the workers take them. */
  method BuildAll(builds: Builds, order: seq<nat>, built: array<Claim>, results: array<Item>, done: array<bool>)
    requires built.Length == |builds| == results.Length == done.Length
    requires forall i <- order :: i < |builds|
    requires forall i :: 0 <= i < |builds| ==> i in order
    requires forall i :: 0 <= i < |builds| ==> !done[i]
    modifies built, results, done
    ensures forall i :: 0 <= i < |builds| ==> done[i] == builds[i].None?
    ensures forall i :: 0 <= i < |builds| && builds[i].Some? ==> built[i] == builds[i].value
    ensures forall i :: 0 <= i < |builds| && builds[i].None? ==> results[i] == Item(i, ZERO_RESULT, Some(BuildFailed))
  {
    for n := 0 to |order|
      invariant forall i :: 0 <= i < |builds| && i in order[..n] ==> done[i] == builds[i].None?
      invariant forall i :: 0 <= i < |builds| && i !in order[..n] ==> !done[i]
      invariant forall i :: 0 <= i < |builds| && i in order[..n] && builds[i].Some? ==> built[i] == builds[i].value
      invariant forall i :: 0 <= i < |builds| && i in order[..n] && builds[i].None? ==>
                  results[i] == Item(i, ZERO_RESULT, Some(BuildFailed))
    {
      var index := order[n];
      assert index in order;
      assert order[..n + 1] == order[..n] + [index];
      if builds[index].None? {
        results[index] := Item(index, ZERO_RESULT, Some(BuildFailed));
        done[index] := true;
      } else {
        built[index] := builds[index].value;
      }
    }
    assert order[..|order|] == order;
  }

  // ---------- what is reported ----------

  /** Item `j` is the last that names index `k`. */
  ghost predicate LastFor(items: seq<Item>, k: int, j: nat) {
    j < |items| && items[j].index == k && forall l :: j < l < |items| ==> items[l].index != k
  }

  lemma {:induction false} LastOf(items: seq<Item>, n: nat, k: int) returns (j: nat)
    requires n <= |items| && Reached(items, n, k)
    ensures j < n && items[j].index == k && forall l :: j < l < n ==> items[l].index != k
  {
    if items[n - 1].index == k {
      j := n - 1;
    } else {
      ReachedStep(items, n - 1, k);
      j := LastOf(items, n - 1, k);
    }
  }

  /** The result of an entry that was answered by an item: its response and its error, and no error if and
      only if it has none and its response is for this claim and accepted. */
  ghost predicate AnsweredBy(accepts: Accepts, claim: Claim, p: nat, item: Item, result: Item) {
    && result.index == p && result.result == item.result
    && (item.err.Some? ==> result.err == item.err)
    && (item.err.None? ==>
          result.err == if Validates(accepts, claim, item.result) then None else Some(Malformed))
  }

  /** What is reported for the entry at `p` when the transport returned these items. */
  ghost predicate ResultIs(accepts: Accepts, builds: Builds, items: seq<Item>, p: nat, result: Item)
    requires p < |builds|
  {
    if builds[p].None? then result == Item(p, ZERO_RESULT, Some(BuildFailed))
    else if !Reached(items, |items|, Rank(builds, p)) then result == Item(p, ZERO_RESULT, Some(NotSubmitted))
    else exists j :: 0 <= j < |items| && LastFor(items, Rank(builds, p), j)
                     && AnsweredBy(accepts, builds[p].value, p, items[j], result)
  }

  /** The entry was built, and the last item for it has no error and a response accepted for its claim. */
  ghost predicate Accepted(accepts: Accepts, builds: Builds, items: seq<Item>, p: nat)
    requires p < |builds|
  {
    builds[p].Some? && exists j :: 0 <= j < |items| && LastFor(items, Rank(builds, p), j)
                                   && items[j].err.None? && Validates(accepts, builds[p].value, items[j].result)
  }

  ghost function AllAccepted(accepts: Accepts, builds: Builds, items: seq<Item>): set<nat> {
    set p: nat | 0 <= p < |builds| && Accepted(accepts, builds, items, p)
  }

  lemma FinishedResult(accepts: Accepts, builds: Builds, items: seq<Item>, results: seq<Item>, p: nat)
    requires |results| == |builds| && InRange(items, |Originals(builds)|) && Finished(accepts, builds, items, results)
    requires p < |builds|
    ensures ResultIs(accepts, builds, items, p, results[p])
  {
    assert Unanswered(builds, items, p, results[p]);
    if builds[p].Some? && Reached(items, |items|, Rank(builds, p)) {
      Ranked(builds, p);
      var j := LastOf(items, |items|, Rank(builds, p));
      assert LastAt(items, |items|, j) && Position(builds, items[j]) == p;
      assert LastFor(items, Rank(builds, p), j) && AnsweredBy(accepts, builds[p].value, p, items[j], results[p]);
    }
  }

  /** An entry is without an error if and only if its answer was accepted. */
  lemma AcceptedExactly(accepts: Accepts, builds: Builds, items: seq<Item>, p: nat, result: Item)
    requires p < |builds| && ResultIs(accepts, builds, items, p, result)
    ensures result.err.None? <==> Accepted(accepts, builds, items, p)
  {
    if builds[p].Some? {
      var k := Rank(builds, p);
      forall j, l | 0 <= j < |items| && 0 <= l < |items| && LastFor(items, k, j) && LastFor(items, k, l)
        ensures j == l
      {
      }
      if j :| 0 <= j < |items| && LastFor(items, k, j) {
        assert Reached(items, |items|, k);
      }
    }
  }

  /** The entries without an error are those not counted as failures. */
  lemma {:induction false} CountsGood(results: seq<Item>, good: set<nat>)
    requires forall p: nat :: p in good <==> p < |results| && results[p].err.None?
    ensures |good| + Failures(results) == |results|
    decreases |results|
  {
    if results == [] {
      assert good == {};
    } else {
      var n := |results| - 1;
      CountsGood(results[..n], good - {n});
      if n in good {
        assert good == good - {n} + {n};
      } else {
        assert good == good - {n};
      }
    }
  }

  ghost predicate AllResults(accepts: Accepts, builds: Builds, items: seq<Item>, results: seq<Item>) {
    |results| == |builds| && forall p :: 0 <= p < |builds| ==> ResultIs(accepts, builds, items, p, results[p])
  }

  /** As many entries are reported as submitted as were accepted. */
  lemma AcceptedCounted(accepts: Accepts, builds: Builds, items: seq<Item>, results: seq<Item>)
    requires AllResults(accepts, builds, items, results)
    ensures |AllAccepted(accepts, builds, items)| + Failures(results) == |builds|
  {
    forall p: nat ensures p in AllAccepted(accepts, builds, items) <==> p < |results| && results[p].err.None? {
      if p < |builds| { AcceptedExactly(accepts, builds, items, p, results[p]); }
    }
    CountsGood(results, AllAccepted(accepts, builds, items));
  }

  /** A reply that is not rejected: as many items as claims, each with the index of a claim. */
  predicate Usable(reply: Option<seq<Item>>, n: nat) {
    reply.Some? && |reply.value| == n && InRange(reply.value, n)
  }

  function Answers(builds: Builds, transport: Transport): seq<Item> {
    if Claims(builds) != [] && transport(Claims(builds)).Some? then transport(Claims(builds)).value else []
  }

  /** What the caller is told about a batch. */
  ghost predicate Reported(accepts: Accepts, builds: Builds, transport: Transport, results: seq<Item>,
                           outcome: Outcome) {
    && |results| == |builds|
    && (outcome.Rejected? <==> Claims(builds) != [] && !Usable(transport(Claims(builds)), |Claims(builds)|))
    && (!outcome.Rejected? ==> forall p :: 0 <= p < |builds| ==> Sound(accepts, builds, p, results[p]))
    && (!outcome.Rejected? ==> AllResults(accepts, builds, Answers(builds, transport), results))
    && (outcome.BatchError? ==>
          outcome.failed == Failures(results) > 0 && outcome.submitted + outcome.failed == |builds|)
    && (outcome.Ok? ==> Failures(results) == 0)
    && (outcome.Ok? <==> AllGood(accepts, builds, transport))
  }

  lemma GoodNeedsReply(accepts: Accepts, builds: Builds, transport: Transport)
    requires AllGood(accepts, builds, transport)
    ensures transport(Claims(builds)).Some? && |transport(Claims(builds)).value| == |Claims(builds)| == |builds|
  {
    AllBuilt(builds);
  }

  /** The entries as the build phase leaves them. */
  ghost predicate Built(builds: Builds, results: seq<Item>, done: seq<bool>) {
    && |results| == |builds| == |done|
    && forall i :: 0 <= i < |builds| ==>
         done[i] == builds[i].None? && (builds[i].None? ==> results[i] == Item(i, ZERO_RESULT, Some(BuildFailed)))
  }

  lemma NothingPlaced(accepts: Accepts, builds: Builds, items: seq<Item>, results: seq<Item>, done: seq<bool>)
    requires Built(builds, results, done)
    ensures items[..0] == [] && Placed(accepts, builds, items, 0, results, done)
  {}

  lemma NoneBuilt(accepts: Accepts, builds: Builds, transport: Transport, results: seq<Item>, done: seq<bool>)
    requires Built(builds, results, done) && builds != [] && |Originals(builds)| == 0
    ensures Reported(accepts, builds, transport, results, BatchError(|builds| - Failures(results), Failures(results)))
  {
    forall i | 0 <= i < |builds| ensures builds[i].None? {
      if builds[i].Some? { BuiltListed(builds, i); }
    }
    NoFailures(results);
    assert results[0].err.Some?;
    assert AllResults(accepts, builds, [], results);
  }

  lemma Delivered(accepts: Accepts, builds: Builds, transport: Transport, items: seq<Item>, results: seq<Item>,
                  outcome: Outcome)
    requires |results| == |builds| && transport(Claims(builds)) == Some(items) && |items| == |Claims(builds)|
    requires InRange(items, |Originals(builds)|) && Finished(accepts, builds, items, results)
    requires outcome == if Failures(results) > 0 then BatchError(|builds| - Failures(results), Failures(results))
             else Ok
    ensures Reported(accepts, builds, transport, results, outcome)
  {
    NoFailures(results);
    forall p | 0 <= p < |builds| ensures ResultIs(accepts, builds, items, p, results[p]) {
      FinishedResult(accepts, builds, items, results, p);
    }
    if AllGood(accepts, builds, transport) { NoErrorsIfGood(accepts, builds, transport, items, results); }
    if NoErrors(results) { GoodIfNoErrors(accepts, builds, transport, items, results); }
  }

  /** The transport call and everything after it. */
  method Deliver(accepts: Accepts, builds: Builds, transport: Transport, originals: seq<nat>, built: array<Claim>,
                 slots: array<Item>, done: array<bool>)
    returns (results: seq<Item>, outcome: Outcome)
    requires originals == Originals(builds) && originals != []
    requires |originals| <= built.Length && built[..|originals|] == Claims(builds)
    requires slots.Length == |builds| == done.Length && Built(builds, slots[..], done[..])
    modifies slots, done
    ensures Reported(accepts, builds, transport, results, outcome)
  {
    var reply := transport(built[..|originals|]);
    if reply.None? || |reply.value| != |originals| {
      if AllGood(accepts, builds, transport) { GoodNeedsReply(accepts, builds, transport); }
      return slots[..], Rejected;
    }
    var items := reply.value;
    NothingPlaced(accepts, builds, items, slots[..], done[..]);
    var ok := Place(accepts, builds, originals, built, items, slots, done);
    if !ok {
      return slots[..], Rejected;
    }
    assert items[..|items|] == items;
    MarkRest(accepts, builds, items, slots, done);
    var submitted, failed := CountResults(slots);
    results := slots[..];
    outcome := if failed > 0 then BatchError(submitted, failed) else Ok;
    Delivered(accepts, builds, transport, items, results, outcome);
  }

  /** The whole native batch. For every reply whatsoever: each entry is reported with the last item sent for
      it, or as not built or not submitted; as many are counted as submitted as were accepted; and the batch
      succeeds exactly when everything went right. */
  method SubmitNative(accepts: Accepts, builds: Builds, order: seq<nat>, transport: Transport)
    returns (results: seq<Item>, outcome: Outcome)
    requires builds != []
    requires forall i <- order :: i < |builds|
    requires forall i :: 0 <= i < |builds| ==> i in order
    ensures |results| == |builds|
    ensures outcome.Rejected? <==> Claims(builds) != [] && !Usable(transport(Claims(builds)), |Claims(builds)|)
    ensures !outcome.Rejected? ==> forall p :: 0 <= p < |builds| ==> Sound(accepts, builds, p, results[p])
    ensures !outcome.Rejected? ==> AllResults(accepts, builds, Answers(builds, transport), results)
    ensures outcome.BatchError? ==>
              outcome.submitted == |AllAccepted(accepts, builds, Answers(builds, transport))|
    ensures outcome.BatchError? ==>
              outcome.failed == Failures(results) > 0 && outcome.submitted + outcome.failed == |builds|
    ensures outcome.Ok? ==> Failures(results) == 0
    ensures outcome.Ok? <==> AllGood(accepts, builds, transport)
  {
    var built, done := new Claim[|builds|](_ => NoClaim), new bool[|builds|](_ => false);
    var slots := new Item[|builds|](_ => ZERO_ITEM);
    BuildAll(builds, order, built, slots, done);
    var count, originals := Compact(builds, built);
    if count == 0 {
      var submitted, failed := CountResults(slots);
      NoneBuilt(accepts, builds, transport, slots[..], done[..]);
      results, outcome := slots[..], BatchError(submitted, failed);
    } else {
      results, outcome := Deliver(accepts, builds, transport, originals, built, slots, done);
    }
    if outcome.BatchError? {
      AcceptedCounted(accepts, builds, Answers(builds, transport), results);
    }
  }

  // ---------- the two transports ----------

  datatype Reply = ReplyError(code: int) | ReplyResult(response: Response) | ReplyNeither

  datatype ReplyItem = ReplyItem(index: int, reply: Reply)

  /** What a reply says about a claim; the client's own copy of the claim is attached. */
  function FromReply(claims: seq<Claim>, item: ReplyItem): Item
    requires 0 <= item.index < |claims|
  {
    match item.reply
    case ReplyError(code) => Item(item.index, ZERO_RESULT, Some(FromServer(code)))
    case ReplyNeither => Item(item.index, ZERO_RESULT, Some(Malformed))
    case ReplyResult(response) => Item(item.index, SubmitResult(claims[item.index], response), None)
  }

  predicate RepliesIn(replies: seq<ReplyItem>, n: nat) {
    forall j :: 0 <= j < |replies| ==> 0 <= replies[j].index < n
  }

  /** The replies as items. */
  function Converted(claims: seq<Claim>, replies: seq<ReplyItem>): (r: seq<Item>)
    requires RepliesIn(replies, |claims|)
    ensures |r| == |replies| && forall j :: 0 <= j < |r| ==> r[j] == FromReply(claims, replies[j])
  {
    seq(|replies|, j requires 0 <= j < |replies| => FromReply(claims, replies[j]))
  }

  /** A slot holds the last item of the stream that names it; one that none names is the zero item, which
      names index 0. */
  ghost predicate SlotFrom(stream: seq<Item>, k: nat, item: Item) {
    if Reached(stream, |stream|, k) then exists j :: 0 <= j < |stream| && LastFor(stream, k, j) && item == stream[j]
    else item == ZERO_ITEM
  }

  lemma SlotStep(stream: seq<Item>, next: Item, k: nat, item: Item)
    requires SlotFrom(stream, k, item)
    ensures SlotFrom(stream + [next], k, if k == next.index then next else item)
  {
    var n, more := |stream|, stream + [next];
    ReachedStep(more, n, k);
    assert forall j :: 0 <= j < n ==> more[j] == stream[j];
    if k == next.index {
      assert LastFor(more, k, n) && more[n] == next;
    } else if Reached(stream, n, k) {
      var j :| 0 <= j < n && LastFor(stream, k, j) && item == stream[j];
      assert LastFor(more, k, j) && more[j] == item;
      assert Reached(more, n, k);
    }
  }

  /** The HTTP transport fills one slot per claim from indexes the server chose. */
  method HttpSubmit(claims: seq<Claim>, env: Option<seq<ReplyItem>>) returns (items: Option<seq<Item>>)
    ensures items.Some? <==> env.Some? && |env.value| == |claims| && RepliesIn(env.value, |claims|)
    ensures items.Some? ==> |items.value| == |claims|
    ensures items.Some? ==>
              forall k :: 0 <= k < |claims| ==> SlotFrom(Converted(claims, env.value), k, items.value[k])
  {
    if env.None? || |env.value| != |claims| {
      return None;
    }
    var replies := env.value;
    var slots := new Item[|claims|](_ => ZERO_ITEM);
    for i := 0 to |replies|
      invariant RepliesIn(replies[..i], |claims|)
      invariant forall k :: 0 <= k < |claims| ==> SlotFrom(Converted(claims, replies[..i]), k, slots[k])
    {
      var r := replies[i];
      assert replies[..i + 1] == replies[..i] + [r];
      if !(0 <= r.index < |claims|) {
        return None;
      }
      ghost var before, seen := slots[..], Converted(claims, replies[..i]);
      slots[r.index] := FromReply(claims, r);
      assert Converted(claims, replies[..i + 1]) == seen + [slots[r.index]];
      forall k | 0 <= k < |claims| ensures SlotFrom(seen + [slots[r.index]], k, slots[k]) {
        if k != r.index { assert slots[k] == before[k]; }
        SlotStep(seen, slots[r.index], k, before[k]);
      }
    }
    assert replies[..|replies|] == replies;
    items := Some(slots[..]);
  }

  /** A zero slot never passes: it claims index 0 with a result no claim validates. */
  lemma ZeroItemFails(accepts: Accepts, claims: seq<Claim>)
    requires claims != []
    ensures Checked(accepts, claims, ZERO_ITEM).err.Some?
  {}

  /** If every slot passes validation, the server named every position. */
  lemma HttpCovered(accepts: Accepts, claims: seq<Claim>, replies: seq<ReplyItem>, items: seq<Item>, k: nat)
    requires k < |claims| == |items| && RepliesIn(replies, |claims|)
    requires forall j :: 0 <= j < |claims| ==> SlotFrom(Converted(claims, replies), j, items[j])
    requires InRange(items, |claims|) && forall j :: 0 <= j < |items| ==> Checked(accepts, claims, items[j]).err.None?
    ensures exists r <- replies :: r.index == k
  {
    ZeroItemFails(accepts, claims);
    assert SlotFrom(Converted(claims, replies), k, items[k]);
    var j :| 0 <= j < |replies| && Converted(claims, replies)[j].index == k;
    assert replies[j] in replies && replies[j].index == k;
  }

  lemma ReachedStep(items: seq<Item>, i: nat, k: int)
    requires i < |items|
    ensures Reached(items, i + 1, k) <==> Reached(items, i, k) || k == items[i].index
  {
    if k == items[i].index {
      assert Reached(items, i + 1, k);
    }
    if Reached(items, i, k) {
      var j :| 0 <= j < i && items[j].index == k;
      assert Reached(items, i + 1, k);
    }
  }

  /** The first item whose index is out of range has a negative one and no error. */
  ghost predicate NegativeFirst(stream: seq<Item>, n: nat) {
    exists i :: 0 <= i < |stream| && NegativeAt(stream, n, i)
  }

  ghost predicate NegativeAt(stream: seq<Item>, n: nat, i: nat)
    requires i < |stream|
  {
    InRange(stream[..i], n) && stream[i].index < 0 && stream[i].err.None?
  }

  predicate Complete(stream: seq<Item>, n: nat) { |stream| == n && InRange(stream, n) }

  /** The gRPC transport collects the items of its stream until the stream ends. A negative index returns
      the item's error; if it carries none, that is an empty list of results without an error, which only
      the count check of the caller rejects. */
  method GrpcSubmit(claims: seq<Claim>, stream: seq<Item>) returns (items: Option<seq<Item>>)
    ensures Complete(stream, |claims|) ==> items.Some? && |items.value| == |claims|
    ensures Complete(stream, |claims|) ==> forall k :: 0 <= k < |claims| ==> SlotFrom(stream, k, items.value[k])
    ensures !Complete(stream, |claims|) ==> items == if NegativeFirst(stream, |claims|) then Some([]) else None
  {
    var slots := new Item[|claims|](_ => ZERO_ITEM);
    var seen := 0;
    for i := 0 to |stream|
      invariant seen == i && InRange(stream[..i], |claims|)
      invariant forall k :: 0 <= k < |claims| ==> SlotFrom(stream[..i], k, slots[k])
    {
      var item := stream[i];
      assert stream[..i + 1] == stream[..i] + [item];
      if item.index < 0 {
        OneStop(stream, |claims|, i);
        return if item.err.Some? then None else Some([]);
      }
      if item.index >= |claims| {
        OneStop(stream, |claims|, i);
        return None;
      }
      ghost var before := slots[..];
      slots[item.index] := item;
      seen := seen + 1;
      forall k | 0 <= k < |claims| ensures SlotFrom(stream[..i + 1], k, slots[k]) {
        if k != item.index { assert slots[k] == before[k]; }
        SlotStep(stream[..i], item, k, before[k]);
      }
    }
    assert stream[..|stream|] == stream;
    if seen != |claims| {
      return None;
    }
    items := Some(slots[..]);
  }

  lemma NotEarlier(stream: seq<Item>, n: nat, i: nat, j: nat)
    requires i < |stream| && j < |stream| && InRange(stream[..i], n) && !(0 <= stream[j].index < n)
    ensures i <= j
  {
    assert forall k :: 0 <= k < i ==> stream[..i][k] == stream[k];
  }

  /** The loop stops at the first index out of range, and only there. */
  lemma OneStop(stream: seq<Item>, n: nat, i: nat)
    requires i < |stream| && InRange(stream[..i], n) && !(0 <= stream[i].index < n)
    ensures NegativeFirst(stream, n) <==> stream[i].index < 0 && stream[i].err.None?
  {
    if NegativeFirst(stream, n) {
      var j :| 0 <= j < |stream| && NegativeAt(stream, n, j);
      NotEarlier(stream, n, i, j);
      NotEarlier(stream, n, j, i);
    }
    if stream[i].index < 0 && stream[i].err.None? {
      assert NegativeAt(stream, n, i);
    }
  }

  /** If every slot passes validation, the stream named every position. */
  lemma GrpcCovered(accepts: Accepts, claims: seq<Claim>, stream: seq<Item>, items: seq<Item>, k: nat)
    requires k < |claims| == |items| && forall j :: 0 <= j < |claims| ==> SlotFrom(stream, j, items[j])
    requires InRange(items, |claims|) && forall j :: 0 <= j < |items| ==> Checked(accepts, claims, items[j]).err.None?
    ensures Reached(stream, |stream|, k)
  {
    ZeroItemFails(accepts, claims);
    assert SlotFrom(stream, k, items[k]);
  }

  // ---------- whole submissions ----------

  /** The indexes the server chose, as items. */
  function Named(replies: seq<ReplyItem>): (r: seq<Item>)
    ensures |r| == |replies| && forall j :: 0 <= j < |r| ==> r[j].index == replies[j].index
  {
    seq(|replies|, j requires 0 <= j < |replies| => Item(replies[j].index, ZERO_RESULT, None))
  }

  /** n indexes, each below n, none twice, none left out. */
  ghost predicate Permutation(items: seq<Item>, n: nat) {
    |items| == n && InRange(items, n) && Distinct(items) && forall k :: 0 <= k < n ==> Reached(items, n, k)
  }

  lemma HttpPermutes(accepts: Accepts, builds: Builds, transport: Transport, replies: seq<ReplyItem>)
    requires AllGood(accepts, builds, transport) && |replies| == |Claims(builds)|
    requires RepliesIn(replies, |Claims(builds)|)
    requires transport(Claims(builds)).Some? && |transport(Claims(builds)).value| == |Claims(builds)|
    requires forall k :: 0 <= k < |Claims(builds)| ==>
             SlotFrom(Converted(Claims(builds), replies), k, transport(Claims(builds)).value[k])
    ensures Permutation(Named(replies), |builds|)
  {
    AllBuilt(builds);
    var named := Named(replies);
    forall k | 0 <= k < |named| ensures Reached(named, |named|, k) {
      HttpCovered(accepts, Claims(builds), replies, transport(Claims(builds)).value, k);
      var j :| 0 <= j < |replies| && replies[j].index == k;
      assert named[j].index == k;
    }
    Pigeonhole(named);
  }

  lemma GrpcPermutes(accepts: Accepts, builds: Builds, transport: Transport, stream: seq<Item>)
    requires AllGood(accepts, builds, transport) && |stream| == |Claims(builds)| && InRange(stream, |Claims(builds)|)
    requires transport(Claims(builds)).Some? && |transport(Claims(builds)).value| == |Claims(builds)|
    requires forall k :: 0 <= k < |Claims(builds)| ==> SlotFrom(stream, k, transport(Claims(builds)).value[k])
    ensures Permutation(stream, |builds|)
  {
    AllBuilt(builds);
    forall k | 0 <= k < |stream| ensures Reached(stream, |stream|, k) {
      GrpcCovered(accepts, Claims(builds), stream, transport(Claims(builds)).value, k);
    }
    Pigeonhole(stream);
  }

  // ---------- the server's own replies ----------

  ghost predicate AllNamed(stream: seq<Item>, n: nat) { forall k :: 0 <= k < n ==> Reached(stream, |stream|, k) }

  /** What is reported for the entry at `p` when a transport collects this stream into slots. A slot the
      stream left out names index 0 and comes after the slot of index 0, so it takes the place of whatever
      was answered for the first claim. */
  ghost predicate Relayed(accepts: Accepts, builds: Builds, stream: seq<Item>, p: nat, result: Item)
    requires p < |builds|
  {
    if builds[p].None? then result == Item(p, ZERO_RESULT, Some(BuildFailed))
    else if Rank(builds, p) == 0 && !AllNamed(stream, |Claims(builds)|)
    then result == Item(p, ZERO_RESULT, Some(Malformed))
    else if !Reached(stream, |stream|, Rank(builds, p)) then result == Item(p, ZERO_RESULT, Some(NotSubmitted))
    else exists j :: 0 <= j < |stream| && LastFor(stream, Rank(builds, p), j)
                     && AnsweredBy(accepts, builds[p].value, p, stream[j], result)
  }

  ghost predicate AllSlots(stream: seq<Item>, slots: seq<Item>) {
    forall k :: 0 <= k < |slots| ==> SlotFrom(stream, k, slots[k])
  }

  lemma SlotNames(stream: seq<Item>, slots: seq<Item>, k: nat)
    requires k < |slots| && AllSlots(stream, slots)
    ensures slots[k].index == if Reached(stream, |stream|, k) then k else 0
  {
    assert SlotFrom(stream, k, slots[k]);
  }

  /** If no slot is left out, or for any index but 0, the last slot that names an index is its own. */
  lemma OwnSlot(stream: seq<Item>, slots: seq<Item>, k: nat, j: nat)
    requires AllSlots(stream, slots) && LastFor(slots, k, j) && (k != 0 || AllNamed(stream, |slots|))
    ensures j == k && Reached(stream, |stream|, k)
  {
    SlotNames(stream, slots, j);
  }

  /** Otherwise the last slot that names index 0 is one left out. */
  lemma ZeroSlot(stream: seq<Item>, slots: seq<Item>, j: nat)
    requires AllSlots(stream, slots) && LastFor(slots, 0, j) && !AllNamed(stream, |slots|)
    ensures slots[j] == ZERO_ITEM
  {
    var u :| 0 <= u < |slots| && !Reached(stream, |stream|, u);
    SlotNames(stream, slots, u);
    SlotNames(stream, slots, j);
    assert SlotFrom(stream, j, slots[j]);
  }

  lemma ZeroNamed(stream: seq<Item>, slots: seq<Item>)
    requires AllSlots(stream, slots) && slots != []
    ensures Reached(slots, |slots|, 0)
  {
    SlotNames(stream, slots, 0);
  }

  /** What the slots make of a stream. */
  lemma SlotsRelay(accepts: Accepts, builds: Builds, stream: seq<Item>, slots: seq<Item>, p: nat, result: Item)
    requires p < |builds| && |slots| == |Claims(builds)| && AllSlots(stream, slots)
    requires ResultIs(accepts, builds, slots, p, result)
    ensures Relayed(accepts, builds, stream, p, result)
  {
    if builds[p].Some? {
      var k := Rank(builds, p);
      Ranked(builds, p);
      if k == 0 { ZeroNamed(stream, slots); }
      if Reached(stream, |stream|, k) {
        SlotNames(stream, slots, k);
        assert Reached(slots, |slots|, k);
      }
      if Reached(slots, |slots|, k) {
        var j :| 0 <= j < |slots| && LastFor(slots, k, j) && AnsweredBy(accepts, builds[p].value, p, slots[j], result);
        if k == 0 && !AllNamed(stream, |slots|) {
          ZeroSlot(stream, slots, j);
        } else {
          OwnSlot(stream, slots, k, j);
          assert SlotFrom(stream, k, slots[k]);
        }
      }
    }
  }

  ghost predicate AllRelayed(accepts: Accepts, builds: Builds, stream: seq<Item>, results: seq<Item>) {
    |results| == |builds| && forall p :: 0 <= p < |builds| ==> Relayed(accepts, builds, stream, p, results[p])
  }

  /** An entry is reported as submitted if and only if its answer was accepted and, for the first claim sent,
      the stream names every claim. */
  lemma RelayedExactly(accepts: Accepts, builds: Builds, stream: seq<Item>, p: nat, result: Item)
    requires p < |builds| && Relayed(accepts, builds, stream, p, result)
    ensures result.err.None? <==>
              Accepted(accepts, builds, stream, p) && (Rank(builds, p) != 0 || AllNamed(stream, |Claims(builds)|))
  {
    if !(builds[p].Some? && Rank(builds, p) == 0 && !AllNamed(stream, |Claims(builds)|)) {
      assert ResultIs(accepts, builds, stream, p, result);
      AcceptedExactly(accepts, builds, stream, p, result);
    }
  }

  ghost function AllKept(accepts: Accepts, builds: Builds, stream: seq<Item>): set<nat> {
    set p: nat | 0 <= p < |builds| && Accepted(accepts, builds, stream, p)
                 && (Rank(builds, p) != 0 || AllNamed(stream, |Claims(builds)|))
  }

  lemma RelayedCounted(accepts: Accepts, builds: Builds, stream: seq<Item>, results: seq<Item>)
    requires AllRelayed(accepts, builds, stream, results)
    ensures |AllKept(accepts, builds, stream)| + Failures(results) == |builds|
  {
    forall p: nat ensures p in AllKept(accepts, builds, stream) <==> p < |results| && results[p].err.None? {
      if p < |builds| { RelayedExactly(accepts, builds, stream, p, results[p]); }
    }
    CountsGood(results, AllKept(accepts, builds, stream));
  }

  /** Two entries are sent, and the server accepts the first and repeats that: the first is reported as
      malformed and its receipt is lost. */
  lemma FirstLost(accepts: Accepts, first: Claim, second: Claim, response: Response, result: Item)
    requires first.Signed? && accepts(first, response)
    requires var item := Item(0, SubmitResult(first, response), None);
             Relayed(accepts, [Some(first), Some(second)], [item, item], 0, result)
    ensures var item := Item(0, SubmitResult(first, response), None);
            Accepted(accepts, [Some(first), Some(second)], [item, item], 0)
    ensures result == Item(0, ZERO_RESULT, Some(Malformed))
  {
    var item := Item(0, SubmitResult(first, response), None);
    var builds, stream := [Some(first), Some(second)], [item, item];
    Ranked(builds, 1);
    assert !Reached(stream, |stream|, 1);
    assert LastFor(stream, 0, 1);
  }

  lemma StreamRelayed(accepts: Accepts, builds: Builds, transport: Transport, stream: seq<Item>, results: seq<Item>)
    requires Claims(builds) != [] ==>
               && transport(Claims(builds)).Some? && |transport(Claims(builds)).value| == |Claims(builds)|
               && AllSlots(stream, transport(Claims(builds)).value)
    requires AllResults(accepts, builds, Answers(builds, transport), results)
    ensures AllRelayed(accepts, builds, stream, results)
  {
    forall p | 0 <= p < |builds| ensures Relayed(accepts, builds, stream, p, results[p]) {
      if builds[p].Some? {
        Ranked(builds, p);
        SlotsRelay(accepts, builds, stream, Answers(builds, transport), p, results[p]);
      } else {
        assert ResultIs(accepts, builds, Answers(builds, transport), p, results[p]);
      }
    }
  }

  /** The slots a stream fills pass the checks of the native batch. */
  lemma SlotsUsable(stream: seq<Item>, slots: seq<Item>)
    requires AllSlots(stream, slots)
    ensures InRange(slots, |slots|)
  {
    forall k | 0 <= k < |slots| ensures 0 <= slots[k].index < |slots| {
      SlotNames(stream, slots, k);
    }
  }

  /** What a reply of the server is reported as. */
  predicate ReplyGives(accepts: Accepts, claim: Claim, p: nat, reply: Reply, result: Item) {
    match reply
    case ReplyError(code) => result == Item(p, ZERO_RESULT, Some(FromServer(code)))
    case ReplyNeither => result == Item(p, ZERO_RESULT, Some(Malformed))
    case ReplyResult(response) =>
      result == Item(p, SubmitResult(claim, response),
                     if claim.Signed? && accepts(claim, response) then None else Some(Malformed))
  }

  /** What is reported for the entry at `p` over HTTP. */
  ghost predicate HttpReports(accepts: Accepts, builds: Builds, replies: seq<ReplyItem>, p: nat, result: Item)
    requires p < |builds|
  {
    var named := Named(replies);
    if builds[p].None? then result == Item(p, ZERO_RESULT, Some(BuildFailed))
    else if Rank(builds, p) == 0 && !AllNamed(named, |Claims(builds)|)
    then result == Item(p, ZERO_RESULT, Some(Malformed))
    else if !Reached(named, |named|, Rank(builds, p)) then result == Item(p, ZERO_RESULT, Some(NotSubmitted))
    else exists j :: 0 <= j < |replies| && LastFor(named, Rank(builds, p), j)
                     && ReplyGives(accepts, builds[p].value, p, replies[j].reply, result)
  }

  ghost predicate HttpAccepted(accepts: Accepts, builds: Builds, replies: seq<ReplyItem>, p: nat)
    requires p < |builds|
  {
    && builds[p].Some? && (Rank(builds, p) != 0 || AllNamed(Named(replies), |Claims(builds)|))
    && exists j :: 0 <= j < |replies| && LastFor(Named(replies), Rank(builds, p), j)
                   && replies[j].reply.ReplyResult? && builds[p].value.Signed?
                   && accepts(builds[p].value, replies[j].reply.response)
  }

  ghost function AllHttpAccepted(accepts: Accepts, builds: Builds, replies: seq<ReplyItem>): set<nat> {
    set p: nat | 0 <= p < |builds| && HttpAccepted(accepts, builds, replies, p)
  }

  ghost predicate AllHttpReports(accepts: Accepts, builds: Builds, replies: seq<ReplyItem>, results: seq<Item>) {
    |results| == |builds| && forall p :: 0 <= p < |builds| ==> HttpReports(accepts, builds, replies, p, results[p])
  }

  lemma SameNames(claims: seq<Claim>, replies: seq<ReplyItem>, k: int, j: nat)
    requires RepliesIn(replies, |claims|)
    ensures Reached(Converted(claims, replies), |replies|, k) <==> Reached(Named(replies), |replies|, k)
    ensures LastFor(Converted(claims, replies), k, j) <==> LastFor(Named(replies), k, j)
  {
    var a, b := Converted(claims, replies), Named(replies);
    assert forall i :: 0 <= i < |replies| ==> a[i].index == b[i].index;
    if Reached(a, |a|, k) { var i :| 0 <= i < |a| && a[i].index == k; assert b[i].index == k; }
    if Reached(b, |b|, k) { var i :| 0 <= i < |b| && b[i].index == k; assert a[i].index == k; }
  }

  lemma HttpRelayed(accepts: Accepts, builds: Builds, replies: seq<ReplyItem>, p: nat, result: Item)
    requires p < |builds| && RepliesIn(replies, |Claims(builds)|)
    requires Relayed(accepts, builds, Converted(Claims(builds), replies), p, result)
    ensures HttpReports(accepts, builds, replies, p, result)
  {
    if builds[p].Some? {
      var claims, k := Claims(builds), Rank(builds, p);
      var stream, named := Converted(claims, replies), Named(replies);
      Ranked(builds, p);
      forall i ensures Reached(stream, |stream|, i) <==> Reached(named, |named|, i) {
        SameNames(claims, replies, i, 0);
      }
      if (k != 0 || AllNamed(stream, |claims|)) && Reached(stream, |stream|, k) {
        var j :| 0 <= j < |stream| && LastFor(stream, k, j)
                 && AnsweredBy(accepts, builds[p].value, p, stream[j], result);
        SameNames(claims, replies, k, j);
        assert stream[j] == FromReply(claims, replies[j]);
        assert ReplyGives(accepts, builds[p].value, p, replies[j].reply, result);
      }
    }
  }

  lemma HttpExactly(accepts: Accepts, builds: Builds, replies: seq<ReplyItem>, p: nat, result: Item)
    requires p < |builds| && HttpReports(accepts, builds, replies, p, result)
    ensures result.err.None? <==> HttpAccepted(accepts, builds, replies, p)
  {
    if builds[p].Some? {
      var named, k := Named(replies), Rank(builds, p);
      forall j, l | 0 <= j < |named| && 0 <= l < |named| && LastFor(named, k, j) && LastFor(named, k, l)
        ensures j == l
      {
      }
      if j :| 0 <= j < |named| && LastFor(named, k, j) {
        assert Reached(named, |named|, k);
      }
    }
  }

  lemma HttpCounted(accepts: Accepts, builds: Builds, replies: seq<ReplyItem>, results: seq<Item>)
    requires AllHttpReports(accepts, builds, replies, results)
    ensures |AllHttpAccepted(accepts, builds, replies)| + Failures(results) == |builds|
  {
    forall p: nat ensures p in AllHttpAccepted(accepts, builds, replies) <==> p < |results| && results[p].err.None? {
      if p < |builds| { HttpExactly(accepts, builds, replies, p, results[p]); }
    }
    CountsGood(results, AllHttpAccepted(accepts, builds, replies));
  }

  /** The replies of an HTTP envelope; none if the request failed. */
  function RepliesOf(env: Option<seq<ReplyItem>>): seq<ReplyItem> { if env.Some? then env.value else [] }

  lemma HttpResults(accepts: Accepts, builds: Builds, transport: Transport, env: Option<seq<ReplyItem>>,
                    results: seq<Item>)
    requires Claims(builds) != [] ==>
               && env.Some? && RepliesIn(env.value, |Claims(builds)|)
               && transport(Claims(builds)).Some? && |transport(Claims(builds)).value| == |Claims(builds)|
               && AllSlots(Converted(Claims(builds), env.value), transport(Claims(builds)).value)
    requires AllResults(accepts, builds, Answers(builds, transport), results)
    ensures AllHttpReports(accepts, builds, RepliesOf(env), results)
  {
    if Claims(builds) != [] {
      StreamRelayed(accepts, builds, transport, Converted(Claims(builds), env.value), results);
    }
    forall p | 0 <= p < |builds| ensures HttpReports(accepts, builds, RepliesOf(env), p, results[p]) {
      if builds[p].Some? {
        Ranked(builds, p);
        HttpRelayed(accepts, builds, env.value, p, results[p]);
      } else {
        assert ResultIs(accepts, builds, Answers(builds, transport), p, results[p]);
      }
    }
  }

  /** A batch over HTTP: every entry is reported by the last reply of the server that names it, unless it is
      the first and some claim is not named, and a batch that succeeds was answered with every position
      exactly once. */
  method SubmitOverHttp(accepts: Accepts, builds: Builds, order: seq<nat>, env: Option<seq<ReplyItem>>)
    returns (results: seq<Item>, outcome: Outcome)
    requires builds != []
    requires forall i <- order :: i < |builds|
    requires forall i :: 0 <= i < |builds| ==> i in order
    ensures |results| == |builds|
    ensures !outcome.Rejected? ==> forall p :: 0 <= p < |builds| ==> Sound(accepts, builds, p, results[p])
    ensures outcome.Rejected? <==>
              && Claims(builds) != []
              && !(env.Some? && |env.value| == |Claims(builds)| && RepliesIn(env.value, |Claims(builds)|))
    ensures !outcome.Rejected? ==> AllHttpReports(accepts, builds, RepliesOf(env), results)
    ensures outcome.BatchError? ==> outcome.submitted == |AllHttpAccepted(accepts, builds, RepliesOf(env))|
    ensures outcome.Ok? ==> env.Some? && Permutation(Named(env.value), |builds|)
  {
    var items := HttpSubmit(Claims(builds), env);
    var transport: Transport := _ => items;
    results, outcome := SubmitNative(accepts, builds, order, transport);
    if items.Some? {
      SlotsUsable(Converted(Claims(builds), env.value), items.value);
    }
    if !outcome.Rejected? {
      HttpResults(accepts, builds, transport, env, results);
      HttpCounted(accepts, builds, RepliesOf(env), results);
    }
    if outcome.Ok? {
      HttpPermutes(accepts, builds, transport, env.value);
    }
  }

  /** And so for a batch over gRPC. */
  method SubmitOverGrpc(accepts: Accepts, builds: Builds, order: seq<nat>, stream: seq<Item>)
    returns (results: seq<Item>, outcome: Outcome)
    requires builds != []
    requires forall i <- order :: i < |builds|
    requires forall i :: 0 <= i < |builds| ==> i in order
    ensures |results| == |builds|
    ensures !outcome.Rejected? ==> forall p :: 0 <= p < |builds| ==> Sound(accepts, builds, p, results[p])
    ensures outcome.Rejected? <==> Claims(builds) != [] && !Complete(stream, |Claims(builds)|)
    ensures !outcome.Rejected? ==> AllRelayed(accepts, builds, stream, results)
    ensures outcome.BatchError? ==> outcome.submitted == |AllKept(accepts, builds, stream)|
    ensures outcome.Ok? ==> Permutation(stream, |builds|)
  {
    var items := GrpcSubmit(Claims(builds), stream);
    var transport: Transport := _ => items;
    results, outcome := SubmitNative(accepts, builds, order, transport);
    if Complete(stream, |Claims(builds)|) {
      SlotsUsable(stream, items.value);
    }
    if !outcome.Rejected? {
      StreamRelayed(accepts, builds, transport, stream, results);
      RelayedCounted(accepts, builds, stream, results);
    }
    if outcome.Ok? {
      GrpcPermutes(accepts, builds, transport, stream);
    }
  }
}
