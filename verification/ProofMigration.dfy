/**
  `metastore migrate`: a copy of a file-backed proof store into another store, phase by phase and page by
  page. The source does not change. The copy may be interrupted after any write and started again.
*/
module ProofMigration {
  import opened Wrappers
  import Text
  import Paging

  const PAGE_SIZE: nat := 1024

  datatype Key =
    | Manifest(id: string)
    | Bundle(id: string)
    | Root(closedAt: int, id: string)
    | Leaf(index: nat)
    | Node(level: nat, start: nat)
    | LogState
    | Sth(size: nat)
    | Tile(level: nat, start: nat, width: nat)
    | Result(stream: string, size: nat)
    | Schedule(stream: string)

  /** A stored document; only a manifest has records. */
  datatype Doc = Doc(records: seq<string>, data: string)

  type Store = map<Key, Doc>

  /** Validation and lease removal of a schedule, its reconciliation with the results stored beside it,
      and when two anchor results are the same. */
  datatype Rules = Rules(clearLease: Doc -> Option<Doc>, reconcile: (Doc, Store) -> Option<Doc>,
                         same: (Doc, Doc) -> bool)

  ghost predicate ValidRules(rules: Rules) { forall d :: rules.same(d, d) }

  // ---------- one destination operation ----------

  datatype Mode = Always | IfAbsent | Immutable

  datatype Op =
    | Copy(key: Key, doc: Doc, mode: Mode)
    | Restore(key: Key, doc: Doc)
    | Missing(id: string)

  function Results(d: Store): Store { map k | k in d && k.Result? :: d[k] }

  /** What the operation makes of the destination; None is an error, which ends the migration. */
  function Step(rules: Rules, overwrite: bool, d: Store, op: Op): Option<Store> {
    match op
    case Copy(key, doc, mode) =>
      if key !in d || mode.Always? then Some(d[key := doc])
      else if mode.IfAbsent? || rules.same(d[key], doc) then Some(d)
      else None
    case Missing(_) => Some(d)
    case Restore(key, doc) =>
      match rules.clearLease(doc)
      case None => None
      case Some(cleared) =>
        if !overwrite && key in d then Some(d)
        else
          match rules.reconcile(cleared, Results(d))
          case None => None
          case Some(restored) => Some(d[key := restored])
  }

  function Run(rules: Rules, overwrite: bool, d: Store, ops: seq<Op>): Option<Store>
    decreases |ops|
  {
    if ops == [] then Some(d)
    else
      match Run(rules, overwrite, d, ops[..|ops| - 1])
      case None => None
      case Some(d') => Step(rules, overwrite, d', ops[|ops| - 1])
  }

  // ---------- what the migration does ----------

  /** The source: its documents, and its directory listings in order. */
  datatype Source = Source(docs: Store, manifests: seq<Key>, roots: seq<Key>, nodes: seq<Key>, tiles: seq<Key>,
                           results: seq<Key>, schedules: seq<Key>)

  /** The paging cursor of a listed document; a tile's leaves out its width. */
  function CursorOf(key: Key): Paging.Cursor {
    match key
    case Manifest(id) => Text.Utf8(id)
    case Root(closedAt, _) => [closedAt]
    case Node(level, start) => [level, start]
    case Tile(level, start, _) => [level, start]
    case Result(stream, size) => [size] + Text.Utf8(stream)
    case _ => []
  }

  /** The phase that copies a document of this kind. */
  function PhaseOf(k: Key): nat {
    match k
    case Manifest(_) => 0 case Root(_, _) => 1 case Leaf(_) => 2 case Node(_, _) => 3 case LogState => 4
    case Sth(_) => 5 case Tile(_, _, _) => 6 case Result(_, _) => 7 case Bundle(_) => 8 case Schedule(_) => 9
  }

  /** A directory listing names exactly the documents of its phase. */
  ghost predicate Lists(docs: Store, keys: seq<Key>, phase: nat) {
    && (forall i | 0 <= i < |keys| :: PhaseOf(keys[i]) == phase && keys[i] in docs)
    && (forall k <- docs :: PhaseOf(k) == phase ==> k in keys)
  }

  ghost predicate AllListed(src: Source) {
    && Lists(src.docs, src.manifests, 0) && Lists(src.docs, src.roots, 1) && Lists(src.docs, src.nodes, 3)
    && Lists(src.docs, src.tiles, 6) && Lists(src.docs, src.results, 7) && Lists(src.docs, src.schedules, 9)
  }

  ghost predicate ValidSource(src: Source) {
    && AllListed(src)
    && Paging.Sorted(src.manifests, CursorOf) && Paging.Sorted(src.roots, CursorOf)
    && Paging.Sorted(src.nodes, CursorOf)
    && Paging.Sorted(src.tiles, CursorOf) && Paging.Sorted(src.results, CursorOf)
  }

  /** Roots and tiles are always written, anchor results are immutable, the rest follows the flag. */
  function ModeOf(overwrite: bool, key: Key): Mode {
    if key.Root? || key.Tile? then Always
    else if !overwrite then IfAbsent
    else if key.Result? then Immutable
    else Always
  }

  function OpFor(docs: Store, overwrite: bool, key: Key): Op
    requires key in docs
  {
    if key.Schedule? then Restore(key, docs[key]) else Copy(key, docs[key], ModeOf(overwrite, key))
  }

  function BundleOp(docs: Store, overwrite: bool, id: string): Op {
    if Bundle(id) in docs then OpFor(docs, overwrite, Bundle(id)) else Missing(id)
  }

  function BundleOps(docs: Store, overwrite: bool, records: seq<string>): (ops: seq<Op>)
    ensures |ops| == |records|
  {
    seq(|records|, i requires 0 <= i < |records| => BundleOp(docs, overwrite, records[i]))
  }

  /** A manifest is published after its available bundles. */
  function OpsFor(docs: Store, overwrite: bool, key: Key): seq<Op>
    requires key in docs
  {
    (if key.Manifest? then BundleOps(docs, overwrite, docs[key].records) else []) + [OpFor(docs, overwrite, key)]
  }

  predicate AllIn(docs: Store, keys: seq<Key>) { forall i | 0 <= i < |keys| :: keys[i] in docs }

  function Ops(docs: Store, overwrite: bool, keys: seq<Key>): seq<Op>
    requires AllIn(docs, keys)
  {
    if keys == [] then [] else Ops(docs, overwrite, keys[..|keys| - 1]) + OpsFor(docs, overwrite, keys[|keys| - 1])
  }

  /** Leaves and tree heads are listed by counting up to the first gap. */
  function Range(docs: Store, at: nat -> Key, n: nat): seq<Key>
    decreases |docs|
  {
    if at(n) in docs then
      Smaller(docs, at(n));
      [at(n)] + Range(docs - {at(n)}, at, n + 1)
    else []
  }

  lemma {:induction false} RangeAt(docs: Store, at: nat -> Key, n: nat, i: nat)
    requires i < |Range(docs, at, n)|
    ensures Range(docs, at, n)[i] in docs && Range(docs, at, n)[i] == at(n + i)
    decreases |docs|
  {
    Smaller(docs, at(n));
    if i > 0 {
      RangeAt(docs - {at(n)}, at, n + 1, i - 1);
    }
  }

  /** A document of the range stands at some position at or after its start. */
  lemma RangeFrom(docs: Store, at: nat -> Key, n: nat, k: Key) returns (m: nat)
    requires k in Range(docs, at, n)
    ensures n <= m && k == at(m) && k in docs
  {
    var i :| 0 <= i < |Range(docs, at, n)| && Range(docs, at, n)[i] == k;
    RangeAt(docs, at, n, i);
    m := n + i;
  }

  lemma Smaller(docs: Store, k: Key)
    requires k in docs
    ensures |docs - {k}| < |docs|
  {
    assert docs == (docs - {k})[k := docs[k]];
  }

  function Paged(keys: seq<Key>, after: Paging.Cursor): seq<Key> {
    Paging.AllSeen(keys, CursorOf, after, PAGE_SIZE)
  }

  const LEAF_AT: nat -> Key := (n: nat) => Leaf(n)
  const STH_AT: nat -> Key := (n: nat) => Sth(n)

  function StateKeys(docs: Store): seq<Key> { if LogState in docs then [LogState] else [] }

  /** The documents of each phase, in the order they are copied. */
  function Phases(src: Source): seq<seq<Key>> {
    [Paged(src.manifests, []), Paged(src.roots, [0]), Range(src.docs, LEAF_AT, 0), Paged(src.nodes, []),
     StateKeys(src.docs), Range(src.docs, STH_AT, 1), Paged(src.tiles, []), Paged(src.results, [])]
  }

  function Flat(phases: seq<seq<Key>>): seq<Key> {
    if phases == [] then [] else Flat(phases[..|phases| - 1]) + phases[|phases| - 1]
  }

  /** Everything that is copied; the schedules are restored last. */
  function Copied(src: Source): seq<Key> { Flat(Phases(src)) }

  function Order(src: Source): seq<Key> { Copied(src) + src.schedules }

  function Plan(src: Source, overwrite: bool): seq<Op>
    requires AllIn(src.docs, Order(src))
  {
    Ops(src.docs, overwrite, Order(src))
  }

  // ---------- a plan is safe to repeat ----------

  predicate Settled(rules: Rules, overwrite: bool, d: Store, op: Op) { Step(rules, overwrite, d, op) == Some(d) }

  predicate ProperOp(op: Op) {
    match op
    case Copy(key, _, _) => !key.Schedule?
    case Restore(key, _) => key.Schedule?
    case Missing(_) => true
  }

  /** Two operations on one key are the same operation, and nothing is copied once a schedule was restored. */
  predicate Follows(op: Op, later: Op) {
    && (!op.Missing? && !later.Missing? && op.key == later.key ==> op == later)
    && (op.Restore? ==> !later.Copy?)
  }

  ghost predicate Orderly(ops: seq<Op>) {
    && (forall i | 0 <= i < |ops| :: ProperOp(ops[i]))
    && (forall i, j | 0 <= i < j < |ops| :: Follows(ops[i], ops[j]))
  }

  lemma StepSettles(rules: Rules, overwrite: bool, d: Store, op: Op)
    requires ValidRules(rules) && ProperOp(op) && Step(rules, overwrite, d, op).Some?
    ensures Settled(rules, overwrite, Step(rules, overwrite, d, op).value, op)
  {
    var d' := Step(rules, overwrite, d, op).value;
    if op.Restore? {
      assert Results(d') == Results(d);
    }
    assert op.Missing? || d'[op.key := d'[op.key]] == d';
  }

  lemma StepKeepsSettled(rules: Rules, overwrite: bool, d: Store, op: Op, later: Op)
    requires ProperOp(op) && ProperOp(later) && Follows(op, later) && Settled(rules, overwrite, d, op)
    requires Step(rules, overwrite, d, later).Some?
    ensures Settled(rules, overwrite, Step(rules, overwrite, d, later).value, op)
  {
    var d' := Step(rules, overwrite, d, later).value;
    if op.Restore? && !later.Missing? {
      assert Results(d') == Results(d);
      if op.key != later.key && !(!overwrite && op.key in d) {
        var restored := rules.reconcile(rules.clearLease(op.doc).value, Results(d)).value;
        assert d[op.key := restored] == d;
        assert d'[op.key := restored] == d';
      }
    } else if op.Copy? && !later.Missing? && op.key != later.key {
      assert op.key in d by {
        assert op.key in d[op.key := op.doc];
      }
      assert op.mode.Always? ==> d[op.key] == op.doc by {
        assert op.mode.Always? ==> d[op.key := op.doc][op.key] == op.doc;
      }
      assert op.mode.Always? ==> d'[op.key := op.doc] == d';
    }
  }

  lemma {:induction false} RunSettles(rules: Rules, overwrite: bool, d: Store, ops: seq<Op>, i: nat)
    requires ValidRules(rules) && Orderly(ops) && i < |ops| && Run(rules, overwrite, d, ops).Some?
    ensures Settled(rules, overwrite, Run(rules, overwrite, d, ops).value, ops[i])
    decreases |ops|
  {
    var n := |ops| - 1;
    var d' := Run(rules, overwrite, d, ops[..n]).value;
    if i == n {
      StepSettles(rules, overwrite, d', ops[n]);
    } else {
      RunSettles(rules, overwrite, d, ops[..n], i);
      StepKeepsSettled(rules, overwrite, d', ops[i], ops[n]);
    }
  }

  lemma {:induction false} SettledRun(rules: Rules, overwrite: bool, d: Store, ops: seq<Op>)
    requires forall i | 0 <= i < |ops| :: Settled(rules, overwrite, d, ops[i])
    ensures Run(rules, overwrite, d, ops) == Some(d)
    decreases |ops|
  {
    if ops != [] {
      SettledRun(rules, overwrite, d, ops[..|ops| - 1]);
      assert Settled(rules, overwrite, d, ops[|ops| - 1]);
    }
  }

  function Then(rules: Rules, overwrite: bool, d: Option<Store>, ops: seq<Op>): Option<Store> {
    if d.None? then None else Run(rules, overwrite, d.value, ops)
  }

  lemma {:induction false} RunConcat(rules: Rules, overwrite: bool, d: Store, a: seq<Op>, b: seq<Op>)
    ensures Run(rules, overwrite, d, a + b) == Then(rules, overwrite, Run(rules, overwrite, d, a), b)
    decreases |b|
  {
    if b == [] {
      assert a + b == a;
    } else {
      var n := |b| - 1;
      assert (a + b)[..|a| + n] == a + b[..n];
      RunConcat(rules, overwrite, d, a, b[..n]);
    }
  }

  /** Starting a plan again after any interruption ends where the uninterrupted plan ends. */
  lemma Restart(rules: Rules, overwrite: bool, d: Store, ops: seq<Op>, k: nat)
    requires ValidRules(rules) && Orderly(ops) && k <= |ops| && Run(rules, overwrite, d, ops[..k]).Some?
    ensures Run(rules, overwrite, Run(rules, overwrite, d, ops[..k]).value, ops) == Run(rules, overwrite, d, ops)
  {
    var d' := Run(rules, overwrite, d, ops[..k]).value;
    forall i | 0 <= i < k ensures Settled(rules, overwrite, d', ops[..k][i]) {
      RunSettles(rules, overwrite, d, ops[..k], i);
    }
    SettledRun(rules, overwrite, d', ops[..k]);
    assert ops == ops[..k] + ops[k..];
    RunConcat(rules, overwrite, d, ops[..k], ops[k..]);
    RunConcat(rules, overwrite, d', ops[..k], ops[k..]);
  }

  /** The destination after a series of runs, each stopped after so many operations. */
  function Attempts(rules: Rules, overwrite: bool, d: Store, ops: seq<Op>, stops: seq<nat>): Option<Store>
    requires forall i | 0 <= i < |stops| :: stops[i] <= |ops|
    decreases |stops|
  {
    if stops == [] then Some(d)
    else
      match Run(rules, overwrite, d, ops[..stops[0]])
      case None => None
      case Some(d') => Attempts(rules, overwrite, d', ops, stops[1..])
  }

  // ---------- the migration's plan is such a plan ----------

  ghost predicate FromSource(docs: Store, overwrite: bool, op: Op) {
    op.Missing? || (op.key in docs && op == OpFor(docs, overwrite, op.key))
  }

  lemma {:induction false} OpsFromSource(docs: Store, overwrite: bool, keys: seq<Key>)
    requires AllIn(docs, keys)
    ensures forall i | 0 <= i < |Ops(docs, overwrite, keys)| ::
            FromSource(docs, overwrite, Ops(docs, overwrite, keys)[i])
    decreases |keys|
  {
    if keys != [] {
      OpsFromSource(docs, overwrite, keys[..|keys| - 1]);
    }
  }

  lemma {:induction false} OpsShape(docs: Store, overwrite: bool, keys: seq<Key>, restoring: bool)
    requires AllIn(docs, keys) && forall i | 0 <= i < |keys| :: keys[i].Schedule? == restoring
    ensures forall i | 0 <= i < |Ops(docs, overwrite, keys)| :: Ops(docs, overwrite, keys)[i].Copy? ==> !restoring
    ensures forall i | 0 <= i < |Ops(docs, overwrite, keys)| :: Ops(docs, overwrite, keys)[i].Restore? ==> restoring
    decreases |keys|
  {
    if keys != [] {
      OpsShape(docs, overwrite, keys[..|keys| - 1], restoring);
    }
  }

  lemma {:induction false} OpsConcat(docs: Store, overwrite: bool, a: seq<Key>, b: seq<Key>)
    requires AllIn(docs, a) && AllIn(docs, b)
    ensures AllIn(docs, a + b) && Ops(docs, overwrite, a + b) == Ops(docs, overwrite, a) + Ops(docs, overwrite, b)
    decreases |b|
  {
    if b == [] {
      assert a + b == a;
    } else {
      var n := |b| - 1;
      OpsConcat(docs, overwrite, a, b[..n]);
      assert a + b == (a + b[..n]) + [b[n]] && b == b[..n] + [b[n]];
      OpsMore(docs, overwrite, a + b[..n], b[n]);
      OpsMore(docs, overwrite, b[..n], b[n]);
      Regroup(Ops(docs, overwrite, a), Ops(docs, overwrite, b[..n]), OpsFor(docs, overwrite, b[n]));
    }
  }

  lemma Regroup(x: seq<Op>, y: seq<Op>, z: seq<Op>)
    ensures (x + y) + z == x + (y + z)
  {
  }

  lemma OpsMore(docs: Store, overwrite: bool, keys: seq<Key>, k: Key)
    requires AllIn(docs, keys) && k in docs
    ensures AllIn(docs, keys + [k])
            && Ops(docs, overwrite, keys + [k]) == Ops(docs, overwrite, keys) + OpsFor(docs, overwrite, k)
  {
    assert (keys + [k])[..|keys|] == keys;
  }

  /** Documents of the source that have a phase of their own: no schedules and no bundles. */
  predicate Plain(docs: Store, keys: seq<Key>) {
    forall i | 0 <= i < |keys| :: keys[i] in docs && !keys[i].Schedule? && !keys[i].Bundle?
  }

  lemma PagedPlain(docs: Store, keys: seq<Key>, after: Paging.Cursor)
    requires Plain(docs, keys)
    ensures Plain(docs, Paged(keys, after))
  {
    var seen := Paged(keys, after);
    var s := Paging.Start(keys, CursorOf, after, 0);
    forall i | 0 <= i < |seen| ensures seen[i] in docs && !seen[i].Schedule? && !seen[i].Bundle? {
      Paging.SeenFrom(keys, CursorOf, s, PAGE_SIZE, seen[i]);
    }
  }

  lemma ListPlain(docs: Store, keys: seq<Key>, phase: nat)
    requires Lists(docs, keys, phase) && phase < 8
    ensures Plain(docs, keys)
  {
  }

  lemma RangePlain(docs: Store)
    ensures Plain(docs, Range(docs, LEAF_AT, 0)) && Plain(docs, Range(docs, STH_AT, 1))
    ensures Injective(LEAF_AT) && Injective(STH_AT)
  {
    forall i | 0 <= i < |Range(docs, LEAF_AT, 0)|
      ensures Range(docs, LEAF_AT, 0)[i] in docs && Range(docs, LEAF_AT, 0)[i].Leaf?
    {
      RangeAt(docs, LEAF_AT, 0, i);
    }
    forall i | 0 <= i < |Range(docs, STH_AT, 1)|
      ensures Range(docs, STH_AT, 1)[i] in docs && Range(docs, STH_AT, 1)[i].Sth?
    {
      RangeAt(docs, STH_AT, 1, i);
    }
    assert forall n :: LEAF_AT(n) == Leaf(n);
    assert forall n :: STH_AT(n) == Sth(n);
  }

  predicate Names(src: Source, ps: seq<seq<Key>>) {
    && |ps| == 8 && ps[0] == Paged(src.manifests, []) && ps[1] == Paged(src.roots, [0])
    && ps[2] == Range(src.docs, LEAF_AT, 0)
    && ps[3] == Paged(src.nodes, []) && ps[4] == StateKeys(src.docs) && ps[5] == Range(src.docs, STH_AT, 1)
    && ps[6] == Paged(src.tiles, []) && ps[7] == Paged(src.results, [])
  }

  /** What the loops need of the source. */
  ghost predicate Ready(src: Source) {
    && Plain(src.docs, src.manifests) && Plain(src.docs, src.roots) && Plain(src.docs, src.nodes)
    && Plain(src.docs, src.tiles) && Plain(src.docs, src.results)
    && Paging.Sorted(src.manifests, CursorOf) && Paging.Sorted(src.roots, CursorOf)
    && Paging.Sorted(src.nodes, CursorOf)
    && Paging.Sorted(src.tiles, CursorOf) && Paging.Sorted(src.results, CursorOf)
    && Injective(LEAF_AT) && Injective(STH_AT)
  }

  predicate AllPlain(docs: Store, phases: seq<seq<Key>>) { forall i | 0 <= i < |phases| :: Plain(docs, phases[i]) }

  lemma SourceReady(src: Source)
    requires ValidSource(src)
    ensures Ready(src)
  {
    RangePlain(src.docs);
    ListPlain(src.docs, src.manifests, 0);
    ListPlain(src.docs, src.roots, 1);
    ListPlain(src.docs, src.nodes, 3);
    ListPlain(src.docs, src.tiles, 6);
    ListPlain(src.docs, src.results, 7);
  }

  lemma NamedPlain(src: Source, ps: seq<seq<Key>>)
    requires Ready(src) && Names(src, ps)
    ensures AllPlain(src.docs, ps)
  {
    forall i | 0 <= i < |ps| ensures Plain(src.docs, ps[i]) {
      OnePlain(src, ps, i);
    }
  }

  lemma OnePlain(src: Source, ps: seq<seq<Key>>, i: nat)
    requires Ready(src) && Names(src, ps) && i < |ps|
    ensures Plain(src.docs, ps[i])
  {
    match i
    case 0 => PagedPlain(src.docs, src.manifests, []);
    case 1 => PagedPlain(src.docs, src.roots, [0]);
    case 3 => PagedPlain(src.docs, src.nodes, []);
    case 6 => PagedPlain(src.docs, src.tiles, []);
    case 7 => PagedPlain(src.docs, src.results, []);
    case _ => RangePlain(src.docs);
  }

  lemma PhasesPlain(src: Source)
    requires ValidSource(src)
    ensures AllPlain(src.docs, Phases(src)) && Names(src, Phases(src)) && Ready(src)
  {
    SourceReady(src);
    NamedPlain(src, Phases(src));
  }

  lemma {:induction false} FlatPlain(docs: Store, phases: seq<seq<Key>>)
    requires AllPlain(docs, phases)
    ensures Plain(docs, Flat(phases))
    decreases |phases|
  {
    if phases != [] {
      FlatPlain(docs, phases[..|phases| - 1]);
    }
  }

  lemma CopiedPlain(src: Source)
    requires ValidSource(src)
    ensures Plain(src.docs, Copied(src))
  {
    PhasesPlain(src);
    FlatPlain(src.docs, Phases(src));
  }

  lemma PlanOrderly(src: Source, overwrite: bool)
    requires ValidSource(src)
    ensures AllIn(src.docs, Order(src)) && Orderly(Plan(src, overwrite))
  {
    CopiedPlain(src);
    KeysOrderly(src.docs, overwrite, Copied(src), src.schedules);
  }

  lemma KeysOrderly(docs: Store, overwrite: bool, copied: seq<Key>, schedules: seq<Key>)
    requires Plain(docs, copied) && AllIn(docs, schedules) && forall i | 0 <= i < |schedules| :: schedules[i].Schedule?
    ensures AllIn(docs, copied + schedules) && Orderly(Ops(docs, overwrite, copied + schedules))
  {
    OpsConcat(docs, overwrite, copied, schedules);
    OpsFromSource(docs, overwrite, copied + schedules);
    OpsShape(docs, overwrite, copied, false);
    OpsShape(docs, overwrite, schedules, true);
    PartsOrderly(docs, overwrite, Ops(docs, overwrite, copied), Ops(docs, overwrite, schedules));
  }

  lemma PartsOrderly(docs: Store, overwrite: bool, a: seq<Op>, b: seq<Op>)
    requires forall i | 0 <= i < |a + b| :: FromSource(docs, overwrite, (a + b)[i])
    requires (forall i | 0 <= i < |a| :: !a[i].Restore?) && (forall i | 0 <= i < |b| :: !b[i].Copy?)
    ensures Orderly(a + b)
  {
    forall i, j | 0 <= i < j < |a + b| ensures Follows((a + b)[i], (a + b)[j]) {
      assert FromSource(docs, overwrite, (a + b)[i]) && FromSource(docs, overwrite, (a + b)[j]);
    }
    forall i | 0 <= i < |a + b| ensures ProperOp((a + b)[i]) {
      assert FromSource(docs, overwrite, (a + b)[i]);
    }
  }

  /** Any number of interrupted migrations followed by a complete one leaves what a single complete
      migration leaves, with and without overwrite, in whatever destination. */
  lemma RestartsAgree(rules: Rules, src: Source, overwrite: bool, d: Store, stops: seq<nat>)
    requires ValidRules(rules) && ValidSource(src) && AllIn(src.docs, Order(src))
    requires forall i | 0 <= i < |stops| :: stops[i] <= |Plan(src, overwrite)|
    requires Attempts(rules, overwrite, d, Plan(src, overwrite), stops).Some?
    ensures Run(rules, overwrite, Attempts(rules, overwrite, d, Plan(src, overwrite), stops).value,
                Plan(src, overwrite))
            == Run(rules, overwrite, d, Plan(src, overwrite))
  {
    PlanOrderly(src, overwrite);
    AttemptsAgree(rules, overwrite, d, Plan(src, overwrite), stops);
  }

  lemma {:induction false} AttemptsAgree(rules: Rules, overwrite: bool, d: Store, ops: seq<Op>, stops: seq<nat>)
    requires ValidRules(rules) && Orderly(ops) && forall i | 0 <= i < |stops| :: stops[i] <= |ops|
    requires Attempts(rules, overwrite, d, ops, stops).Some?
    ensures Run(rules, overwrite, Attempts(rules, overwrite, d, ops, stops).value, ops) == Run(rules, overwrite, d, ops)
    decreases |stops|
  {
    if stops != [] {
      Restart(rules, overwrite, d, ops, stops[0]);
      AttemptsAgree(rules, overwrite, Run(rules, overwrite, d, ops[..stops[0]]).value, ops, stops[1..]);
    }
  }

  // ---------- a manifest is never there before its bundles ----------

  /** Every manifest in the destination has all the bundles of its records that the source can give. */
  ghost predicate Covered(docs: Store, d: Store) {
    forall k | k in d && k.Manifest? :: CoveredBy(docs, d, d[k].records)
  }

  ghost predicate CoveredBy(docs: Store, d: Store, records: seq<string>) {
    forall i | 0 <= i < |records| && Bundle(records[i]) in docs :: Bundle(records[i]) in d
  }

  lemma {:induction false} RunHas(rules: Rules, overwrite: bool, d: Store, ops: seq<Op>, i: nat)
    requires i < |ops| && !ops[i].Missing? && Run(rules, overwrite, d, ops).Some?
    ensures ops[i].key in Run(rules, overwrite, d, ops).value
    decreases |ops|
  {
    if i < |ops| - 1 {
      RunHas(rules, overwrite, d, ops[..|ops| - 1], i);
    }
  }

  ghost predicate Listed(docs: Store, overwrite: bool, ops: seq<Op>, records: seq<string>) {
    forall i | 0 <= i < |records| && Bundle(records[i]) in docs :: OpFor(docs, overwrite, Bundle(records[i])) in ops
  }

  lemma {:induction false} BundlesFirst(docs: Store, overwrite: bool, keys: seq<Key>, j: nat)
    requires AllIn(docs, keys) && j < |Ops(docs, overwrite, keys)|
    requires Ops(docs, overwrite, keys)[j].Copy? && Ops(docs, overwrite, keys)[j].key.Manifest?
    ensures Listed(docs, overwrite, Ops(docs, overwrite, keys)[..j], Ops(docs, overwrite, keys)[j].doc.records)
    decreases |keys|
  {
    var n := |keys| - 1;
    var before, last := Ops(docs, overwrite, keys[..n]), OpsFor(docs, overwrite, keys[n]);
    if j < |before| {
      BundlesFirst(docs, overwrite, keys[..n], j);
      assert (before + last)[..j] == before[..j];
    } else {
      var records := docs[keys[n]].records;
      assert (before + last)[..j] == before + last[..j - |before|];
      forall i | 0 <= i < |records| && Bundle(records[i]) in docs
        ensures OpFor(docs, overwrite, Bundle(records[i])) in last[..j - |before|] {
        assert last[i] == BundleOp(docs, overwrite, records[i]);
      }
    }
  }

  lemma {:induction false} CoveredThroughout(rules: Rules, overwrite: bool, docs: Store, d: Store, keys: seq<Key>,
                                             n: nat)
    requires AllIn(docs, keys) && n <= |Ops(docs, overwrite, keys)| && Covered(docs, d)
    requires Run(rules, overwrite, d, Ops(docs, overwrite, keys)[..n]).Some?
    ensures Covered(docs, Run(rules, overwrite, d, Ops(docs, overwrite, keys)[..n]).value)
    decreases n
  {
    if n > 0 {
      var ops := Ops(docs, overwrite, keys);
      assert ops[..n][..n - 1] == ops[..n - 1];
      CoveredThroughout(rules, overwrite, docs, d, keys, n - 1);
      var d1 := Run(rules, overwrite, d, ops[..n - 1]).value;
      var op := ops[n - 1];
      if op.Copy? && op.key.Manifest? {
        BundlesFirst(docs, overwrite, keys, n - 1);
        forall i | 0 <= i < |op.doc.records| && Bundle(op.doc.records[i]) in docs
          ensures Bundle(op.doc.records[i]) in d1 {
          var k :| 0 <= k < n - 1 && ops[..n - 1][k] == OpFor(docs, overwrite, Bundle(op.doc.records[i]));
          RunHas(rules, overwrite, d, ops[..n - 1], k);
        }
      }
      OpsFromSource(docs, overwrite, keys);
      assert FromSource(docs, overwrite, op);
      StepCovers(rules, overwrite, docs, d1, op);
    }
  }

  lemma StepCovers(rules: Rules, overwrite: bool, docs: Store, d: Store, op: Op)
    requires Covered(docs, d) && Step(rules, overwrite, d, op).Some?
    requires op.Copy? && op.key.Manifest? ==> CoveredBy(docs, d, op.doc.records)
    requires op.Restore? ==> op.key.Schedule?
    ensures Covered(docs, Step(rules, overwrite, d, op).value)
  {
    var d' := Step(rules, overwrite, d, op).value;
    forall k | k in d' && k.Manifest? ensures CoveredBy(docs, d', d'[k].records) {
      assert k in d && d'[k] == d[k] ==> CoveredBy(docs, d, d[k].records);
    }
  }

  /** The same after any number of interrupted runs, at whatever point the last one stands. */
  lemma {:induction false} CoveredAlways(rules: Rules, src: Source, overwrite: bool, d: Store, stops: seq<nat>)
    requires ValidSource(src) && AllIn(src.docs, Order(src)) && Covered(src.docs, d)
    requires forall i | 0 <= i < |stops| :: stops[i] <= |Plan(src, overwrite)|
    requires Attempts(rules, overwrite, d, Plan(src, overwrite), stops).Some?
    ensures Covered(src.docs, Attempts(rules, overwrite, d, Plan(src, overwrite), stops).value)
    decreases |stops|
  {
    if stops != [] {
      CoveredThroughout(rules, overwrite, src.docs, d, Order(src), stops[0]);
      CoveredAlways(rules, src, overwrite, Run(rules, overwrite, d, Plan(src, overwrite)[..stops[0]]).value,
                    stops[1..]);
    }
  }

  // ---------- what a complete migration leaves ----------

  lemma {:induction false} Untouched(rules: Rules, overwrite: bool, d: Store, ops: seq<Op>, key: Key)
    requires Run(rules, overwrite, d, ops).Some? && forall i | 0 <= i < |ops| :: ops[i].Missing? || ops[i].key != key
    ensures var d' := Run(rules, overwrite, d, ops).value;
            (key in d' <==> key in d) && (key in d ==> d'[key] == d[key])
    decreases |ops|
  {
    if ops != [] {
      Untouched(rules, overwrite, d, ops[..|ops| - 1], key);
    }
  }

  lemma {:induction false} RunCopies(rules: Rules, overwrite: bool, d: Store, ops: seq<Op>, op: Op)
    requires Orderly(ops) && op in ops && op.Copy? && Run(rules, overwrite, d, ops).Some?
    ensures var d' := Run(rules, overwrite, d, ops).value;
            && op.key in d'
            && d'[op.key] == if op.key in d && !op.mode.Always? then d[op.key] else op.doc
    decreases |ops|
  {
    var n := |ops| - 1;
    if op in ops[..n] {
      RunCopies(rules, overwrite, d, ops[..n], op);
      var i :| 0 <= i < n && ops[i] == op;
      assert Follows(ops[i], ops[n]);
    } else {
      forall i | 0 <= i < n ensures ops[i].Missing? || ops[i].key != op.key {
        assert Follows(ops[i], ops[n]) && ops[..n][i] == ops[i];
      }
      Untouched(rules, overwrite, d, ops[..n], op.key);
    }
  }

  lemma {:induction false} RunRestores(rules: Rules, overwrite: bool, d: Store, ops: seq<Op>, op: Op)
    requires Orderly(ops) && op in ops && op.Restore? && (overwrite || op.key !in d)
             && Run(rules, overwrite, d, ops).Some?
    ensures var d' := Run(rules, overwrite, d, ops).value;
            && op.key in d' && rules.clearLease(op.doc).Some?
            && rules.reconcile(rules.clearLease(op.doc).value, Results(d')) == Some(d'[op.key])
    decreases |ops|
  {
    var n := |ops| - 1;
    var before := Run(rules, overwrite, d, ops[..n]).value;
    var d' := Run(rules, overwrite, d, ops).value;
    if op in ops[..n] {
      RunRestores(rules, overwrite, d, ops[..n], op);
      var i :| 0 <= i < n && ops[i] == op;
      assert Follows(ops[i], ops[n]) && ProperOp(ops[n]);
    } else {
      forall i | 0 <= i < n ensures ops[i].Missing? || ops[i].key != op.key {
        assert Follows(ops[i], ops[n]) && ops[..n][i] == ops[i];
      }
      Untouched(rules, overwrite, d, ops[..n], op.key);
      assert ProperOp(ops[n]);
    }
    assert Results(d') == Results(before);
  }

  lemma {:induction false} OpListed(docs: Store, overwrite: bool, keys: seq<Key>, key: Key)
    requires AllIn(docs, keys) && key in keys
    ensures OpFor(docs, overwrite, key) in Ops(docs, overwrite, keys)
    ensures key.Manifest? ==> Listed(docs, overwrite, Ops(docs, overwrite, keys), docs[key].records)
    decreases |keys|
  {
    var n := |keys| - 1;
    var ops, last := Ops(docs, overwrite, keys), OpsFor(docs, overwrite, keys[n]);
    if key in keys[..n] {
      OpListed(docs, overwrite, keys[..n], key);
    } else {
      assert key == keys[n] && last[|last| - 1] == OpFor(docs, overwrite, key);
      if key.Manifest? {
        forall i | 0 <= i < |docs[key].records| && Bundle(docs[key].records[i]) in docs
          ensures OpFor(docs, overwrite, Bundle(docs[key].records[i])) in last
        {
          assert last[i] == BundleOp(docs, overwrite, docs[key].records[i]);
        }
      }
    }
  }

  /** What the code reaches: a listed document, or a bundle of a reached manifest. */
  ghost predicate Reached(src: Source, key: Key) {
    || key in Copied(src)
    || (key.Bundle? && key in src.docs && exists m ::
        m in Copied(src) && m.Manifest? && m in src.docs && key.id in src.docs[m].records)
  }

  /** A copied document the destination's own is preferred to: without the overwrite flag anything that is
      not a root or a tile, and an anchor result always. */
  predicate KeepsOwn(overwrite: bool, d: Store, key: Key) {
    key in d && !key.Root? && !key.Tile? && (!overwrite || key.Result?)
  }

  /** A complete migration leaves every document it reaches equal to the source's, except where the
      destination's own is kept, and of all other keys changes only schedules. */
  lemma Migrated(rules: Rules, src: Source, overwrite: bool, d: Store, key: Key)
    requires ValidSource(src) && AllIn(src.docs, Order(src)) && Run(rules, overwrite, d, Plan(src, overwrite)).Some?
    ensures var d' := Run(rules, overwrite, d, Plan(src, overwrite)).value;
            && (Reached(src, key) ==>
                  && key in d' && key in src.docs
                  && d'[key] == if KeepsOwn(overwrite, d, key) then d[key] else src.docs[key])
            && (!Reached(src, key) && key !in src.schedules ==>
                (key in d' <==> key in d) && (key in d ==> d'[key] == d[key]))
            && (key in src.schedules && !overwrite && key in d ==> key in d' && d'[key] == d[key])
  {
    var ops := Plan(src, overwrite);
    PlanOrderly(src, overwrite);
    if Reached(src, key) {
      ReachedListed(src, overwrite, key);
      RunCopies(rules, overwrite, d, ops, OpFor(src.docs, overwrite, key));
    } else if key !in src.schedules {
      forall i | 0 <= i < |ops| ensures ops[i].Missing? || ops[i].key != key {
        OnlyReached(src, overwrite, i);
      }
      Untouched(rules, overwrite, d, ops, key);
    }
    if key in src.schedules && !overwrite && key in d {
      assert key.Schedule?;
      ScheduleKept(rules, d, ops, key);
    }
  }

  lemma {:induction false} ScheduleKept(rules: Rules, d: Store, ops: seq<Op>, key: Key)
    requires key in d && key.Schedule? && Run(rules, false, d, ops).Some?
    requires forall i | 0 <= i < |ops| :: ProperOp(ops[i])
    ensures key in Run(rules, false, d, ops).value && Run(rules, false, d, ops).value[key] == d[key]
    decreases |ops|
  {
    if ops != [] {
      ScheduleKept(rules, d, ops[..|ops| - 1], key);
      assert ProperOp(ops[|ops| - 1]);
    }
  }

  // ---------- when a migration is refused ----------

  /** A copy that does not run into a different anchor result. */
  predicate Passes(rules: Rules, d: Store, op: Op) {
    op.Copy? && op.mode.Immutable? && op.key in d ==> rules.same(d[op.key], op.doc)
  }

  lemma {:induction false} CopiesPass(rules: Rules, overwrite: bool, d: Store, ops: seq<Op>)
    requires ValidRules(rules) && Orderly(ops) && forall i | 0 <= i < |ops| :: !ops[i].Restore?
    ensures Run(rules, overwrite, d, ops).Some? <==> forall i | 0 <= i < |ops| :: Passes(rules, d, ops[i])
    decreases |ops|
  {
    if ops != [] {
      var n := |ops| - 1;
      CopiesPass(rules, overwrite, d, ops[..n]);
      if Run(rules, overwrite, d, ops[..n]).Some? {
        assert ops[..n] + [ops[n]] == ops;
        CopyPasses(rules, overwrite, d, ops[..n], ops[n]);
      }
      assert forall i | 0 <= i < n :: ops[..n][i] == ops[i];
    }
  }

  lemma CopyPasses(rules: Rules, overwrite: bool, d: Store, ops: seq<Op>, op: Op)
    requires ValidRules(rules) && Orderly(ops + [op]) && !op.Restore? && Run(rules, overwrite, d, ops).Some?
    ensures Step(rules, overwrite, Run(rules, overwrite, d, ops).value, op).Some? <==> Passes(rules, d, op)
  {
    var more := ops + [op];
    assert more[|ops|] == op && forall i | 0 <= i < |ops| :: more[i] == ops[i];
    if op.Copy? {
      if op in ops {
        RunCopies(rules, overwrite, d, ops, op);
      } else {
        forall i | 0 <= i < |ops| ensures ops[i].Missing? || ops[i].key != op.key {
          assert Follows(more[i], more[|ops|]);
        }
        Untouched(rules, overwrite, d, ops, op.key);
      }
    }
  }

  /** A schedule that can be restored beside the given results. */
  predicate Restorable(rules: Rules, overwrite: bool, d: Store, results: Store, op: Op) {
    op.Restore? ==>
      && rules.clearLease(op.doc).Some?
      && (overwrite || op.key !in d ==> rules.reconcile(rules.clearLease(op.doc).value, results).Some?)
  }

  lemma {:induction false} ResultsStay(rules: Rules, overwrite: bool, d: Store, ops: seq<Op>)
    requires Run(rules, overwrite, d, ops).Some? && forall i | 0 <= i < |ops| :: ProperOp(ops[i]) && !ops[i].Copy?
    ensures Results(Run(rules, overwrite, d, ops).value) == Results(d)
    decreases |ops|
  {
    if ops != [] {
      var n := |ops| - 1;
      ResultsStay(rules, overwrite, d, ops[..n]);
      assert ProperOp(ops[n]) && !ops[n].Copy?;
      assert Results(Run(rules, overwrite, d, ops).value) == Results(Run(rules, overwrite, d, ops[..n]).value);
    }
  }

  lemma {:induction false} RestoresPass(rules: Rules, overwrite: bool, d: Store, ops: seq<Op>)
    requires Orderly(ops) && forall i | 0 <= i < |ops| :: !ops[i].Copy?
    ensures Run(rules, overwrite, d, ops).Some? <==>
              forall i | 0 <= i < |ops| :: Restorable(rules, overwrite, d, Results(d), ops[i])
    decreases |ops|
  {
    if ops != [] {
      var n := |ops| - 1;
      RestoresPass(rules, overwrite, d, ops[..n]);
      assert forall i | 0 <= i < n :: ops[..n][i] == ops[i];
      if Run(rules, overwrite, d, ops[..n]).Some? {
        assert ops[..n] + [ops[n]] == ops;
        RestorePasses(rules, overwrite, d, ops[..n], ops[n]);
      }
    }
  }

  lemma RestorePasses(rules: Rules, overwrite: bool, d: Store, ops: seq<Op>, op: Op)
    requires Orderly(ops + [op]) && Run(rules, overwrite, d, ops).Some? && !op.Copy?
    requires forall i | 0 <= i < |ops| :: !ops[i].Copy? && Restorable(rules, overwrite, d, Results(d), ops[i])
    ensures Step(rules, overwrite, Run(rules, overwrite, d, ops).value, op).Some? <==>
              Restorable(rules, overwrite, d, Results(d), op)
  {
    var more := ops + [op];
    assert more[|ops|] == op && forall i | 0 <= i < |ops| :: more[i] == ops[i];
    assert forall i | 0 <= i < |ops| :: ProperOp(more[i]);
    ResultsStay(rules, overwrite, d, ops);
    if op.Restore? {
      if i :| 0 <= i < |ops| && ops[i] == op {
        RunHas(rules, overwrite, d, ops, i);
      } else {
        forall i | 0 <= i < |ops| ensures ops[i].Missing? || ops[i].key != op.key {
          assert Follows(more[i], more[|ops|]);
        }
        Untouched(rules, overwrite, d, ops, op.key);
      }
    }
  }

  /** The anchor results the destination holds when the schedules are restored. */
  function FinalResults(docs: Store, keys: seq<Key>, d: Store): Store {
    map k | k in d.Keys + docs.Keys && k.Result? && (k in d || k in keys) :: if k in d then d[k] else docs[k]
  }

  lemma ResultsMerged(rules: Rules, overwrite: bool, docs: Store, keys: seq<Key>, d: Store)
    requires Plain(docs, keys) && Orderly(Ops(docs, overwrite, keys))
    requires Run(rules, overwrite, d, Ops(docs, overwrite, keys)).Some?
    ensures Results(Run(rules, overwrite, d, Ops(docs, overwrite, keys)).value) == FinalResults(docs, keys, d)
  {
    var d1 := Run(rules, overwrite, d, Ops(docs, overwrite, keys)).value;
    forall k: Key | k.Result?
      ensures (k in d1 <==> k in d || k in keys) && (k in d1 ==> d1[k] == if k in d then d[k] else docs[k])
    {
      ResultMerged(rules, overwrite, docs, keys, d, k);
    }
    assert forall k <- keys :: k in docs;
  }

  lemma ResultMerged(rules: Rules, overwrite: bool, docs: Store, keys: seq<Key>, d: Store, k: Key)
    requires Plain(docs, keys) && Orderly(Ops(docs, overwrite, keys)) && k.Result?
    requires Run(rules, overwrite, d, Ops(docs, overwrite, keys)).Some?
    ensures var d1 := Run(rules, overwrite, d, Ops(docs, overwrite, keys)).value;
            && (k in d1 <==> k in d || k in keys)
            && (k in d1 ==> if k in d then d1[k] == d[k] else k in docs && d1[k] == docs[k])
  {
    var ops := Ops(docs, overwrite, keys);
    if k in keys {
      OpListed(docs, overwrite, keys, k);
      RunCopies(rules, overwrite, d, ops, OpFor(docs, overwrite, k));
    } else {
      forall i | 0 <= i < |ops| ensures ops[i].Missing? || ops[i].key != k {
        if !ops[i].Missing? {
          OpNamed(docs, overwrite, keys, i);
        }
      }
      Untouched(rules, overwrite, d, ops, k);
    }
  }

  /** An anchor result of the destination that differs from the source's. */
  predicate Conflicts(rules: Rules, docs: Store, d: Store, k: Key) {
    k.Result? && k in d && k in docs && !rules.same(d[k], docs[k])
  }

  /** A schedule that is invalid, or that is to be written and does not go with the given results. */
  predicate Unrestorable(rules: Rules, overwrite: bool, doc: Doc, present: bool, results: Store) {
    || rules.clearLease(doc).None?
    || ((overwrite || !present) && rules.reconcile(rules.clearLease(doc).value, results).None?)
  }

  predicate FailsIn(rules: Rules, overwrite: bool, docs: Store, d: Store, results: Store, k: Key) {
    k in docs && Unrestorable(rules, overwrite, docs[k], k in d, results)
  }

  lemma CopiesRefused(rules: Rules, overwrite: bool, docs: Store, keys: seq<Key>, d: Store)
    requires ValidRules(rules) && Plain(docs, keys)
    ensures Run(rules, overwrite, d, Ops(docs, overwrite, keys)).None? <==>
              overwrite && exists k :: k in keys && Conflicts(rules, docs, d, k)
  {
    var ops := Ops(docs, overwrite, keys);
    CopiesOrderly(docs, overwrite, keys);
    CopiesPass(rules, overwrite, d, ops);
    if i :| 0 <= i < |ops| && !Passes(rules, d, ops[i]) {
      ConflictingOp(rules, overwrite, docs, keys, d, i);
    }
    if overwrite {
      forall k | k in keys && Conflicts(rules, docs, d, k)
        ensures exists i :: 0 <= i < |ops| && !Passes(rules, d, ops[i])
      {
        ConflictingKey(rules, docs, keys, d, k);
      }
    }
  }

  lemma ConflictingOp(rules: Rules, overwrite: bool, docs: Store, keys: seq<Key>, d: Store, i: nat)
    requires Plain(docs, keys) && i < |Ops(docs, overwrite, keys)| && !Passes(rules, d, Ops(docs, overwrite, keys)[i])
    ensures overwrite && exists k :: k in keys && Conflicts(rules, docs, d, k)
  {
    var op := Ops(docs, overwrite, keys)[i];
    CopiesOrderly(docs, overwrite, keys);
    assert FromSource(docs, overwrite, op) && op.key.Result?;
    OpNamed(docs, overwrite, keys, i);
    assert op.key in keys && Conflicts(rules, docs, d, op.key);
  }

  lemma ConflictingKey(rules: Rules, docs: Store, keys: seq<Key>, d: Store, k: Key)
    requires AllIn(docs, keys) && k in keys && Conflicts(rules, docs, d, k)
    ensures exists i :: 0 <= i < |Ops(docs, true, keys)| && !Passes(rules, d, Ops(docs, true, keys)[i])
  {
    OpListed(docs, true, keys, k);
    var i :| 0 <= i < |Ops(docs, true, keys)| && Ops(docs, true, keys)[i] == OpFor(docs, true, k);
  }

  lemma CopiesOrderly(docs: Store, overwrite: bool, keys: seq<Key>)
    requires Plain(docs, keys)
    ensures Orderly(Ops(docs, overwrite, keys))
    ensures forall i | 0 <= i < |Ops(docs, overwrite, keys)| ::
              !Ops(docs, overwrite, keys)[i].Restore? && FromSource(docs, overwrite, Ops(docs, overwrite, keys)[i])
  {
    var ops := Ops(docs, overwrite, keys);
    OpsFromSource(docs, overwrite, keys);
    OpsShape(docs, overwrite, keys, false);
    assert ops + [] == ops;
    PartsOrderly(docs, overwrite, ops, []);
  }

  lemma RestoresRefused(rules: Rules, overwrite: bool, docs: Store, schedules: seq<Key>, d: Store)
    requires AllIn(docs, schedules) && forall i | 0 <= i < |schedules| :: schedules[i].Schedule?
    ensures Run(rules, overwrite, d, Ops(docs, overwrite, schedules)).None? <==>
              exists k :: k in schedules && FailsIn(rules, overwrite, docs, d, Results(d), k)
  {
    var ops := Ops(docs, overwrite, schedules);
    RestoresOrderly(docs, overwrite, schedules);
    RestoresPass(rules, overwrite, d, ops);
    if i :| 0 <= i < |ops| && !Restorable(rules, overwrite, d, Results(d), ops[i]) {
      FailingOp(rules, overwrite, docs, schedules, d, i);
    }
    forall k | k in schedules && FailsIn(rules, overwrite, docs, d, Results(d), k)
      ensures exists i :: 0 <= i < |ops| && !Restorable(rules, overwrite, d, Results(d), ops[i])
    {
      FailingKey(rules, overwrite, docs, schedules, d, k);
    }
  }

  lemma RestoresOrderly(docs: Store, overwrite: bool, schedules: seq<Key>)
    requires AllIn(docs, schedules) && forall i | 0 <= i < |schedules| :: schedules[i].Schedule?
    ensures Orderly(Ops(docs, overwrite, schedules))
    ensures forall i | 0 <= i < |Ops(docs, overwrite, schedules)| ::
              && Ops(docs, overwrite, schedules)[i].Restore?
              && FromSource(docs, overwrite, Ops(docs, overwrite, schedules)[i])
  {
    var ops := Ops(docs, overwrite, schedules);
    OpsFromSource(docs, overwrite, schedules);
    OpsShape(docs, overwrite, schedules, true);
    assert [] + ops == ops;
    PartsOrderly(docs, overwrite, [], ops);
  }

  lemma FailingOp(rules: Rules, overwrite: bool, docs: Store, schedules: seq<Key>, d: Store, i: nat)
    requires AllIn(docs, schedules) && i < |Ops(docs, overwrite, schedules)|
    requires forall i | 0 <= i < |schedules| :: schedules[i].Schedule?
    requires !Restorable(rules, overwrite, d, Results(d), Ops(docs, overwrite, schedules)[i])
    ensures exists k :: k in schedules && FailsIn(rules, overwrite, docs, d, Results(d), k)
  {
    var op := Ops(docs, overwrite, schedules)[i];
    RestoresOrderly(docs, overwrite, schedules);
    assert FromSource(docs, overwrite, op);
    OpNamed(docs, overwrite, schedules, i);
    assert op.key in schedules && FailsIn(rules, overwrite, docs, d, Results(d), op.key);
  }

  lemma FailingKey(rules: Rules, overwrite: bool, docs: Store, schedules: seq<Key>, d: Store, k: Key)
    requires AllIn(docs, schedules) && k in schedules && k.Schedule?
    requires FailsIn(rules, overwrite, docs, d, Results(d), k)
    ensures exists i :: 0 <= i < |Ops(docs, overwrite, schedules)|
              && !Restorable(rules, overwrite, d, Results(d), Ops(docs, overwrite, schedules)[i])
  {
    OpListed(docs, overwrite, schedules, k);
    var i :| 0 <= i < |Ops(docs, overwrite, schedules)|
             && Ops(docs, overwrite, schedules)[i] == OpFor(docs, overwrite, k);
  }

  /** A migration fails if and only if, with the flag, a reached anchor result conflicts with the
      destination's, or a schedule cannot be restored. */
  lemma RefusedExactly(rules: Rules, src: Source, overwrite: bool, d: Store)
    requires ValidRules(rules) && ValidSource(src) && AllIn(src.docs, Order(src))
    ensures Run(rules, overwrite, d, Plan(src, overwrite)).None? <==>
              || (overwrite && exists k :: k in Copied(src) && Conflicts(rules, src.docs, d, k))
              || (exists k :: k in src.schedules
                              && FailsIn(rules, overwrite, src.docs, d, FinalResults(src.docs, Copied(src), d), k))
  {
    CopiedPlain(src);
    KeysRefused(rules, overwrite, src.docs, Copied(src), src.schedules, d);
  }

  lemma KeysRefused(rules: Rules, overwrite: bool, docs: Store, keys: seq<Key>, schedules: seq<Key>, d: Store)
    requires ValidRules(rules) && Plain(docs, keys)
    requires AllIn(docs, schedules) && forall i | 0 <= i < |schedules| :: schedules[i].Schedule?
    ensures AllIn(docs, keys + schedules)
    ensures Run(rules, overwrite, d, Ops(docs, overwrite, keys + schedules)).None? <==>
              || (overwrite && exists k :: k in keys && Conflicts(rules, docs, d, k))
              || (exists k :: k in schedules
                              && FailsIn(rules, overwrite, docs, d, FinalResults(docs, keys, d), k))
  {
    var a, b := Ops(docs, overwrite, keys), Ops(docs, overwrite, schedules);
    OpsConcat(docs, overwrite, keys, schedules);
    RunConcat(rules, overwrite, d, a, b);
    CopiesRefused(rules, overwrite, docs, keys, d);
    if Run(rules, overwrite, d, a).Some? {
      LaterRefused(rules, overwrite, docs, keys, schedules, d);
    }
  }

  lemma LaterRefused(rules: Rules, overwrite: bool, docs: Store, keys: seq<Key>, schedules: seq<Key>, d: Store)
    requires Plain(docs, keys) && Run(rules, overwrite, d, Ops(docs, overwrite, keys)).Some?
    requires AllIn(docs, schedules) && forall i | 0 <= i < |schedules| :: schedules[i].Schedule?
    ensures var d1 := Run(rules, overwrite, d, Ops(docs, overwrite, keys)).value;
            Run(rules, overwrite, d1, Ops(docs, overwrite, schedules)).None? <==>
              exists k :: k in schedules && FailsIn(rules, overwrite, docs, d, FinalResults(docs, keys, d), k)
  {
    var d1 := Run(rules, overwrite, d, Ops(docs, overwrite, keys)).value;
    CopiesOrderly(docs, overwrite, keys);
    ResultsMerged(rules, overwrite, docs, keys, d);
    RestoresRefused(rules, overwrite, docs, schedules, d1);
    forall k | k in schedules
      ensures FailsIn(rules, overwrite, docs, d1, Results(d1), k)
              <==> FailsIn(rules, overwrite, docs, d, FinalResults(docs, keys, d), k)
    {
      SchedulesUncopied(rules, overwrite, docs, keys, d, k);
    }
  }

  lemma SchedulesUncopied(rules: Rules, overwrite: bool, docs: Store, keys: seq<Key>, d: Store, k: Key)
    requires Plain(docs, keys) && k.Schedule? && Run(rules, overwrite, d, Ops(docs, overwrite, keys)).Some?
    ensures k in Run(rules, overwrite, d, Ops(docs, overwrite, keys)).value <==> k in d
  {
    var ops := Ops(docs, overwrite, keys);
    forall i | 0 <= i < |ops| ensures ops[i].Missing? || ops[i].key != k {
      if !ops[i].Missing? {
        OpNamed(docs, overwrite, keys, i);
      }
    }
    Untouched(rules, overwrite, d, ops, k);
  }

  /** With the flag, an anchor result the destination keeps is the same as the source's. */
  lemma KeptResultSame(rules: Rules, src: Source, d: Store, k: Key)
    requires ValidRules(rules) && ValidSource(src) && AllIn(src.docs, Order(src))
    requires Run(rules, true, d, Plan(src, true)).Some? && Reached(src, k) && k.Result? && k in d
    ensures k in src.docs && rules.same(d[k], src.docs[k])
  {
    CopiedPlain(src);
    RefusedExactly(rules, src, true, d);
  }

  /** The keys an operation of a plan can have. */
  ghost predicate Named(docs: Store, keys: seq<Key>, key: Key) {
    key in keys || (key.Bundle? && key in docs && exists m ::
                    m in keys && m.Manifest? && m in docs && key.id in docs[m].records)
  }

  lemma {:induction false} OpNamed(docs: Store, overwrite: bool, keys: seq<Key>, i: nat)
    requires AllIn(docs, keys) && i < |Ops(docs, overwrite, keys)| && !Ops(docs, overwrite, keys)[i].Missing?
    ensures Named(docs, keys, Ops(docs, overwrite, keys)[i].key)
    decreases |keys|
  {
    var n := |keys| - 1;
    var before, last := Ops(docs, overwrite, keys[..n]), OpsFor(docs, overwrite, keys[n]);
    var op := Ops(docs, overwrite, keys)[i];
    if i < |before| {
      OpNamed(docs, overwrite, keys[..n], i);
      if op.key !in keys {
        var m :| m in keys[..n] && m.Manifest? && m in docs && op.key.id in docs[m].records;
        assert m in keys;
      }
    } else {
      assert op == last[i - |before|] && keys[n] in keys;
      if i - |before| < |last| - 1 {
        assert op == BundleOp(docs, overwrite, docs[keys[n]].records[i - |before|]);
      }
    }
  }

  lemma OnlyReached(src: Source, overwrite: bool, i: nat)
    requires ValidSource(src) && AllIn(src.docs, Order(src)) && i < |Plan(src, overwrite)|
    ensures var op := Plan(src, overwrite)[i];
            op.Missing? || Reached(src, op.key) || op.key in src.schedules
  {
    var op := Plan(src, overwrite)[i];
    if !op.Missing? {
      OpNamed(src.docs, overwrite, Order(src), i);
      if op.key !in Order(src) {
        var m :| m in Order(src) && m.Manifest? && m in src.docs && op.key.id in src.docs[m].records;
        assert m !in src.schedules;
        assert m in Copied(src);
      }
    }
  }

  /** What a store that was empty holds afterwards: what was reached and the schedules, nothing else. */
  lemma ReceivedExactly(rules: Rules, src: Source, overwrite: bool, key: Key)
    requires ValidSource(src) && AllIn(src.docs, Order(src)) && Run(rules, overwrite, map[], Plan(src, overwrite)).Some?
    ensures key in Run(rules, overwrite, map[], Plan(src, overwrite)).value <==>
            Reached(src, key) || key in src.schedules
  {
    Migrated(rules, src, overwrite, map[], key);
    if key in src.schedules {
      SchedulesReconciled(rules, src, overwrite, map[], key);
    }
  }

  /** So a bundle that no manifest of the source names stays behind, */
  lemma OrphanLeft(rules: Rules, src: Source, overwrite: bool, id: string)
    requires ValidSource(src) && AllIn(src.docs, Order(src)) && Run(rules, overwrite, map[], Plan(src, overwrite)).Some?
    requires forall m <- src.docs :: m.Manifest? ==> id !in src.docs[m].records
    ensures Bundle(id) !in Run(rules, overwrite, map[], Plan(src, overwrite)).value
  {
    ReceivedExactly(rules, src, overwrite, Bundle(id));
    CopiedPlain(src);
  }

  /** as in this source, which holds nothing else. */
  lemma OrphanExists(rules: Rules, doc: Doc)
    ensures var src := Source(map[Bundle("r") := doc], [], [], [], [], [], []);
            && ValidSource(src) && AllIn(src.docs, Order(src))
            && Run(rules, false, map[], Plan(src, false)) == Some(map[])
  {
    var src := Source(map[Bundle("r") := doc], [], [], [], [], [], []);
    assert Phases(src) == [[], [], [], [], [], [], [], []];
    FlatEmpty(Phases(src));
  }

  lemma {:induction false} FlatEmpty(phases: seq<seq<Key>>)
    requires forall i | 0 <= i < |phases| :: phases[i] == []
    ensures Flat(phases) == []
    decreases |phases|
  {
    if phases != [] {
      FlatEmpty(phases[..|phases| - 1]);
    }
  }

  lemma ReachedListed(src: Source, overwrite: bool, key: Key)
    requires ValidSource(src) && AllIn(src.docs, Order(src)) && Reached(src, key)
    ensures key in src.docs && !key.Schedule? && OpFor(src.docs, overwrite, key) in Plan(src, overwrite)
  {
    CopiedPlain(src);
    if key in Copied(src) {
      assert key in Order(src);
      OpListed(src.docs, overwrite, Order(src), key);
    } else {
      var m :| m in Copied(src) && m.Manifest? && m in src.docs && key.id in src.docs[m].records;
      assert m in Order(src);
      OpListed(src.docs, overwrite, Order(src), m);
      var i :| 0 <= i < |src.docs[m].records| && src.docs[m].records[i] == key.id;
      assert key == Bundle(src.docs[m].records[i]);
    }
  }

  /** A restored schedule is the source's, its lease cleared, reconciled with the results that the
      destination finally holds. */
  lemma SchedulesReconciled(rules: Rules, src: Source, overwrite: bool, d: Store, key: Key)
    requires ValidSource(src) && AllIn(src.docs, Order(src)) && Run(rules, overwrite, d, Plan(src, overwrite)).Some?
    requires key in src.schedules && (overwrite || key !in d)
    ensures var d' := Run(rules, overwrite, d, Plan(src, overwrite)).value;
            && key in d' && rules.clearLease(src.docs[key]).Some?
            && rules.reconcile(rules.clearLease(src.docs[key]).value, Results(d')) == Some(d'[key])
  {
    PlanOrderly(src, overwrite);
    assert key in Order(src);
    OpListed(src.docs, overwrite, Order(src), key);
    RunRestores(rules, overwrite, d, Plan(src, overwrite), OpFor(src.docs, overwrite, key));
  }

  /** A leaf or tree head is reached exactly when no index below it is missing. */
  lemma {:induction false} RangeExactly(docs: Store, at: nat -> Key, n: nat, m: nat)
    requires n <= m && forall i: nat, j: nat | at(i) == at(j) :: i == j
    ensures at(m) in Range(docs, at, n) <==> forall i | n <= i <= m :: at(i) in docs
    decreases m - n
  {
    var keys := Range(docs, at, n);
    if at(n) in docs {
      var rest := Range(docs - {at(n)}, at, n + 1);
      assert keys == [at(n)] + rest;
      if n < m {
        RangeExactly(docs - {at(n)}, at, n + 1, m);
        assert forall i | n + 1 <= i <= m :: at(i) in docs - {at(n)} <==> at(i) in docs;
      }
    }
  }

  ghost predicate Ascends(keys: seq<Key>, after: Paging.Cursor) {
    && (keys == [] || Text.Less(after, CursorOf(keys[0])))
    && (forall k | 0 < k < |keys| :: Text.Less(CursorOf(keys[k - 1]), CursorOf(keys[k])))
  }

  /** The first cursor lies beyond the initial one and the cursor moves at every page boundary. */
  ghost predicate Moves(keys: seq<Key>, after: Paging.Cursor) {
    && (keys == [] || Text.Less(after, CursorOf(keys[0])))
    && Paging.BoundariesMove(keys, CursorOf, 0, PAGE_SIZE)
  }

  /** A paged phase copies its whole listing exactly when the first cursor lies beyond the initial one
      and the cursor moves at every page boundary; positive, distinct close times are enough for roots. */
  lemma WholeListing(keys: seq<Key>, after: Paging.Cursor)
    ensures Paged(keys, after) == keys <==> Moves(keys, after)
    ensures Ascends(keys, after) ==> Paged(keys, after) == keys
  {
    Paging.AllSeenExactly(keys, CursorOf, after, PAGE_SIZE);
    if Ascends(keys, after) {
      Paging.DistinctMove(keys, CursorOf, 0, PAGE_SIZE);
    }
  }

  /** The cursors move, the counted documents have no gap, every bundle belongs to a manifest. */
  ghost predicate Whole(src: Source) {
    AllMove(src) && Gapless(src.docs) && AllOwned(src)
  }

  ghost predicate AllMove(src: Source) {
    && Moves(src.manifests, []) && Moves(src.roots, [0]) && Moves(src.nodes, []) && Moves(src.tiles, [])
    && Moves(src.results, [])
  }

  ghost predicate AllOwned(src: Source) { forall k <- src.docs :: k.Bundle? ==> Owned(src, k.id) }

  ghost predicate Owned(src: Source, id: string) {
    exists m :: m in src.docs && m.Manifest? && id in src.docs[m].records
  }

  /** Leaves count from zero and tree heads from one. */
  ghost predicate Gapless(docs: Store) {
    LeavesCount(docs) && HeadsCount(docs)
  }

  ghost predicate LeavesCount(docs: Store) {
    forall i: nat, j: nat | i <= j && Leaf(j) in docs :: Leaf(i) in docs
  }

  ghost predicate HeadsCount(docs: Store) {
    Sth(0) !in docs && forall i: nat, j: nat | 0 < i <= j && Sth(j) in docs :: Sth(i) in docs
  }

  /** Nothing of its kind is lost in a phase. */
  ghost predicate Full(docs: Store, keys: seq<Key>, after: Paging.Cursor, phase: nat) {
    Lists(docs, keys, phase) && Paged(keys, after) == keys
  }

  ghost predicate AllFull(src: Source) {
    && Full(src.docs, src.manifests, [], 0) && Full(src.docs, src.roots, [0], 1) && Full(src.docs, src.nodes, [], 3)
    && Full(src.docs, src.tiles, [], 6) && Full(src.docs, src.results, [], 7)
  }

  lemma WholeFull(src: Source)
    requires AllListed(src)
    ensures AllFull(src) <==> AllMove(src)
  {
    WholeListing(src.manifests, []);
    WholeListing(src.roots, [0]);
    WholeListing(src.nodes, []);
    WholeListing(src.tiles, []);
    WholeListing(src.results, []);
  }

  lemma {:induction false} InFlat(phases: seq<seq<Key>>, i: nat, k: Key)
    requires i < |phases| && k in phases[i]
    ensures k in Flat(phases)
    decreases |phases|
  {
    if i < |phases| - 1 {
      InFlat(phases[..|phases| - 1], i, k);
    }
  }

  lemma InRange(docs: Store, k: Key)
    requires k in docs && Gapless(docs)
    ensures k.Leaf? ==> k in Range(docs, LEAF_AT, 0)
    ensures k.Sth? ==> k in Range(docs, STH_AT, 1)
  {
    RangePlain(docs);
    if k.Leaf? {
      RangeExactly(docs, LEAF_AT, 0, k.index);
    } else if k.Sth? {
      RangeExactly(docs, STH_AT, 1, k.size);
    }
  }

  lemma InPhase(src: Source, ps: seq<seq<Key>>, k: Key)
    requires Names(src, ps) && k in src.docs && PhaseOf(k) < 8
    requires AllFull(src)
    requires (k.Leaf? ==> k in ps[2]) && (k.Sth? ==> k in ps[5])
    ensures k in ps[PhaseOf(k)]
  {
    match k
    case Manifest(_) => assert k in src.manifests;
    case Root(_, _) => assert k in src.roots;
    case Node(_, _) => assert k in src.nodes;
    case Tile(_, _, _) => assert k in src.tiles;
    case Result(_, _) => assert k in src.results;
    case _ =>
  }

  lemma NamedReached(src: Source, ps: seq<seq<Key>>, k: Key)
    requires AllFull(src) && Gapless(src.docs) && Names(src, ps) && k in src.docs && PhaseOf(k) < 8
    ensures k in Flat(ps)
  {
    assert (k.Leaf? ==> k in ps[2]) && (k.Sth? ==> k in ps[5]) by {
      InRange(src.docs, k);
    }
    InPhase(src, ps, k);
    InFlat(ps, PhaseOf(k), k);
  }

  lemma PhasesOf(src: Source) returns (ps: seq<seq<Key>>)
    ensures Names(src, ps) && Flat(ps) == Copied(src)
  {
    ps := Phases(src);
  }

  lemma DocReached(src: Source, k: Key)
    requires AllFull(src) && Gapless(src.docs) && k in src.docs && PhaseOf(k) < 8
    ensures k in Copied(src)
  {
    var ps := PhasesOf(src);
    NamedReached(src, ps, k);
  }

  lemma BundleReached(src: Source, k: Key, m: Key)
    requires k.Bundle? && k in src.docs && m in Copied(src) && m.Manifest? && m in src.docs
             && k.id in src.docs[m].records
    ensures Reached(src, k)
  {
  }

  lemma WholeReaches(src: Source, k: Key)
    requires AllListed(src) && Whole(src) && k in src.docs && !k.Schedule?
    ensures Reached(src, k)
  {
    WholeFull(src);
    if k.Bundle? {
      assert Owned(src, k.id);
      var m :| m in src.docs && m.Manifest? && k.id in src.docs[m].records;
      DocReached(src, m);
      BundleReached(src, k, m);
    } else {
      DocReached(src, k);
    }
  }

  /** Then a complete migration into an empty store leaves every document of the source, */
  lemma EverythingMigrated(rules: Rules, src: Source, overwrite: bool, k: Key)
    requires ValidSource(src) && Whole(src) && k in src.docs && !k.Schedule?
    requires AllIn(src.docs, Order(src)) && Run(rules, overwrite, map[], Plan(src, overwrite)).Some?
    ensures var d' := Run(rules, overwrite, map[], Plan(src, overwrite)).value;
            k in d' && d'[k] == src.docs[k]
  {
    WholeReaches(src, k);
    Migrated(rules, src, overwrite, map[], k);
  }

  ghost predicate NoRepeat(keys: seq<Key>) { forall i, j | 0 <= i < j < |keys| :: keys[i] != keys[j] }

  ghost predicate NoRepeats(src: Source) {
    && NoRepeat(src.manifests) && NoRepeat(src.roots) && NoRepeat(src.nodes) && NoRepeat(src.tiles)
    && NoRepeat(src.results)
  }

  ghost predicate Everything(src: Source, d: Store) {
    forall k <- src.docs :: !k.Schedule? ==> k in d && d[k] == src.docs[k]
  }

  /** and only then: a directory lists no document twice, so this is exactly when nothing is lost. */
  lemma EverythingExactly(rules: Rules, src: Source, overwrite: bool)
    requires ValidSource(src) && NoRepeats(src)
    requires AllIn(src.docs, Order(src)) && Run(rules, overwrite, map[], Plan(src, overwrite)).Some?
    ensures Everything(src, Run(rules, overwrite, map[], Plan(src, overwrite)).value) <==> Whole(src)
  {
    var d' := Run(rules, overwrite, map[], Plan(src, overwrite)).value;
    if Whole(src) {
      WholeGivesAll(rules, src, overwrite, d');
    }
    if Everything(src, d') {
      EverythingReached(rules, src, overwrite);
      CopiedPlain(src);
      AllReached(src);
    }
  }

  lemma WholeGivesAll(rules: Rules, src: Source, overwrite: bool, d': Store)
    requires ValidSource(src) && Whole(src)
    requires AllIn(src.docs, Order(src)) && Run(rules, overwrite, map[], Plan(src, overwrite)) == Some(d')
    ensures Everything(src, d')
  {
    forall k | k in src.docs && !k.Schedule? ensures k in d' && d'[k] == src.docs[k] {
      EverythingMigrated(rules, src, overwrite, k);
    }
  }

  ghost predicate ReachesAll(src: Source) { forall k <- src.docs :: !k.Schedule? ==> Reached(src, k) }

  lemma EverythingReached(rules: Rules, src: Source, overwrite: bool)
    requires ValidSource(src)
    requires AllIn(src.docs, Order(src)) && Run(rules, overwrite, map[], Plan(src, overwrite)).Some?
    requires Everything(src, Run(rules, overwrite, map[], Plan(src, overwrite)).value)
    ensures ReachesAll(src)
  {
    forall k | k in src.docs && !k.Schedule? ensures Reached(src, k) {
      ReceivedExactly(rules, src, overwrite, k);
      NotScheduled(src, k);
    }
  }

  lemma NotScheduled(src: Source, k: Key)
    requires AllListed(src) && !k.Schedule?
    ensures k !in src.schedules
  {
  }

  lemma AllReached(src: Source)
    requires AllListed(src) && NoRepeats(src) && Plain(src.docs, Copied(src)) && ReachesAll(src)
    ensures Whole(src)
  {
    var ps := InOwnPhases(src);
    AllMoved(src, ps);
    PhasesGapless(src, ps);
    BundlesOwned(src);
  }

  lemma AllMoved(src: Source, ps: seq<seq<Key>>)
    requires AllListed(src) && NoRepeats(src) && Names(src, ps) && OwnPhases(src.docs, ps)
    ensures AllMove(src)
  {
    PhasesFull(src, ps);
    WholeFull(src);
  }

  lemma PhasesGapless(src: Source, ps: seq<seq<Key>>)
    requires Names(src, ps) && OwnPhases(src.docs, ps)
    ensures Gapless(src.docs)
  {
    LeavesOfPhases(src.docs, ps);
    HeadsOfPhases(src.docs, ps);
  }

  lemma LeavesOfPhases(docs: Store, ps: seq<seq<Key>>)
    requires OwnPhases(docs, ps) && ps[2] == Range(docs, LEAF_AT, 0)
    ensures LeavesCount(docs)
  {
    assert forall k <- docs :: k.Leaf? ==> PhaseOf(k) == 2;
    LeavesGapless(docs, ps[2]);
  }

  lemma HeadsOfPhases(docs: Store, ps: seq<seq<Key>>)
    requires OwnPhases(docs, ps) && ps[5] == Range(docs, STH_AT, 1)
    ensures HeadsCount(docs)
  {
    assert forall k <- docs :: k.Sth? ==> PhaseOf(k) == 5;
    HeadsGapless(docs, ps[5]);
  }

  /** Every document is in the phase of its kind. */
  ghost predicate OwnPhases(docs: Store, ps: seq<seq<Key>>) {
    |ps| == 8 && forall k <- docs :: PhaseOf(k) < 8 ==> k in ps[PhaseOf(k)]
  }

  lemma InOwnPhases(src: Source) returns (ps: seq<seq<Key>>)
    requires AllListed(src) && ReachesAll(src)
    ensures Names(src, ps) && OwnPhases(src.docs, ps)
  {
    ps := PhasesOf(src);
    forall k | k in src.docs && PhaseOf(k) < 8 ensures k in ps[PhaseOf(k)] {
      assert Reached(src, k);
      ReachedInPhase(src, ps, k);
    }
  }

  lemma BundlesOwned(src: Source)
    requires ReachesAll(src) && Plain(src.docs, Copied(src))
    ensures AllOwned(src)
  {
    forall k | k in src.docs && k.Bundle? ensures Owned(src, k.id) {
      assert Reached(src, k);
    }
  }

  /** A document that is copied is copied in the phase of its kind. */
  lemma ReachedInPhase(src: Source, ps: seq<seq<Key>>, k: Key)
    requires AllListed(src) && Names(src, ps) && k in Flat(ps)
    ensures PhaseOf(k) < 8 && k in ps[PhaseOf(k)]
  {
    var i := InSome(ps, k);
    PhaseKind(src, ps, i, k);
  }

  lemma {:induction false} InSome(phases: seq<seq<Key>>, key: Key) returns (i: nat)
    requires key in Flat(phases)
    ensures i < |phases| && key in phases[i]
    decreases |phases|
  {
    var n := |phases| - 1;
    if key in phases[n] {
      i := n;
    } else {
      i := InSome(phases[..n], key);
    }
  }

  lemma PagedKind(docs: Store, keys: seq<Key>, after: Paging.Cursor, phase: nat, key: Key)
    requires Lists(docs, keys, phase) && key in Paged(keys, after)
    ensures PhaseOf(key) == phase
  {
    Paging.SeenFrom(keys, CursorOf, Paging.Start(keys, CursorOf, after, 0), PAGE_SIZE, key);
  }

  lemma PhaseKind(src: Source, ps: seq<seq<Key>>, i: nat, key: Key)
    requires AllListed(src) && Names(src, ps) && i < 8 && key in ps[i]
    ensures PhaseOf(key) == i
  {
    if i in {2, 4, 5} {
      ScannedKind(src.docs, ps[2], ps[4], ps[5], i, key);
    } else {
      PagedPhaseKind(src, ps, i, key);
    }
  }

  lemma PagedPhaseKind(src: Source, ps: seq<seq<Key>>, i: nat, key: Key)
    requires AllListed(src) && |ps| == 8 && i < 8 && i !in {2, 4, 5} && key in ps[i]
    requires ps[0] == Paged(src.manifests, []) && ps[1] == Paged(src.roots, [0]) && ps[3] == Paged(src.nodes, [])
             && ps[6] == Paged(src.tiles, []) && ps[7] == Paged(src.results, [])
    ensures PhaseOf(key) == i
  {
    match i
    case 0 => PagedKind(src.docs, src.manifests, [], 0, key);
    case 1 => PagedKind(src.docs, src.roots, [0], 1, key);
    case 3 => PagedKind(src.docs, src.nodes, [], 3, key);
    case 6 => PagedKind(src.docs, src.tiles, [], 6, key);
    case _ => PagedKind(src.docs, src.results, [], 7, key);
  }

  lemma ScannedKind(docs: Store, leaves: seq<Key>, state: seq<Key>, heads: seq<Key>, i: nat, key: Key)
    requires leaves == Range(docs, LEAF_AT, 0) && state == StateKeys(docs) && heads == Range(docs, STH_AT, 1)
    requires i in {2, 4, 5} && key in (if i == 2 then leaves else if i == 4 then state else heads)
    ensures PhaseOf(key) == i
  {
    RangeKind(docs, key);
  }

  lemma RangeKind(docs: Store, key: Key)
    ensures key in Range(docs, LEAF_AT, 0) ==> key.Leaf?
    ensures key in Range(docs, STH_AT, 1) ==> key.Sth? && key.size > 0
  {
    if key in Range(docs, LEAF_AT, 0) {
      var m := RangeFrom(docs, LEAF_AT, 0, key);
    }
    if key in Range(docs, STH_AT, 1) {
      var m := RangeFrom(docs, STH_AT, 1, key);
    }
  }

  lemma PhasesFull(src: Source, ps: seq<seq<Key>>)
    requires AllListed(src) && NoRepeats(src) && Names(src, ps) && OwnPhases(src.docs, ps)
    ensures AllFull(src)
  {
    OneFull(src.docs, src.manifests, [], 0);
    OneFull(src.docs, src.roots, [0], 1);
    OneFull(src.docs, src.nodes, [], 3);
    OneFull(src.docs, src.tiles, [], 6);
    OneFull(src.docs, src.results, [], 7);
  }

  lemma OneFull(docs: Store, keys: seq<Key>, after: Paging.Cursor, phase: nat)
    requires Lists(docs, keys, phase) && NoRepeat(keys)
    requires forall k <- docs :: PhaseOf(k) == phase ==> k in Paged(keys, after)
    ensures Full(docs, keys, after, phase)
  {
    Paging.EachSeen(keys, CursorOf, after, PAGE_SIZE);
  }

  lemma LeavesGapless(docs: Store, keys: seq<Key>)
    requires keys == Range(docs, LEAF_AT, 0) && forall k <- docs :: k.Leaf? ==> k in keys
    ensures LeavesCount(docs)
  {
    RangePlain(docs);
    forall i: nat, j: nat | i <= j && Leaf(j) in docs ensures Leaf(i) in docs {
      NoneMissing(docs, LEAF_AT, 0, i, j);
    }
  }

  lemma HeadsGapless(docs: Store, keys: seq<Key>)
    requires keys == Range(docs, STH_AT, 1) && forall k <- docs :: k.Sth? ==> k in keys
    ensures HeadsCount(docs)
  {
    RangePlain(docs);
    RangeKind(docs, Sth(0));
    forall i: nat, j: nat | 0 < i <= j && Sth(j) in docs ensures Sth(i) in docs {
      NoneMissing(docs, STH_AT, 1, i, j);
    }
  }

  lemma NoneMissing(docs: Store, at: nat -> Key, n: nat, i: nat, j: nat)
    requires Injective(at) && n <= i <= j && at(j) in Range(docs, at, n)
    ensures at(i) in docs
  {
    RangeExactly(docs, at, n, j);
  }

  /** More than a page of documents with one cursor: all beyond the first page are lost. */
  lemma TiesLost(keys: seq<Key>, after: Paging.Cursor, c: Paging.Cursor)
    requires |keys| > PAGE_SIZE && Text.Less(after, c) && forall i | 0 <= i < |keys| :: CursorOf(keys[i]) == c
    ensures Paging.Sorted(keys, CursorOf) && Paged(keys, after) == keys[..PAGE_SIZE]
  {
    Text.LessIrreflexive(c);
    assert Paging.Start(keys, CursorOf, after, 0) == 0;
    assert Paging.Start(keys, CursorOf, CursorOf(keys[PAGE_SIZE - 1]), PAGE_SIZE) == |keys|;
    assert Paging.Seen(keys, CursorOf, |keys|, PAGE_SIZE) == [] && Paging.Upto(0, PAGE_SIZE, |keys|) == PAGE_SIZE;
    assert Paging.Seen(keys, CursorOf, 0, PAGE_SIZE) == keys[0..PAGE_SIZE] + [];
  }

  /** 1025 roots with different batch IDs and one close time. */
  function TiedRoots(closedAt: int): (keys: seq<Key>)
    ensures |keys| == PAGE_SIZE + 1 && NoRepeat(keys)
    ensures forall i | 0 <= i < |keys| :: keys[i].Root? && keys[i].closedAt == closedAt && keys[i].id != ""
  {
    var keys := seq(PAGE_SIZE + 1, i requires 0 <= i < PAGE_SIZE + 1 => Root(closedAt, seq(i + 1, _ => 'a')));
    assert forall i | 0 <= i < |keys| :: |keys[i].id| == i + 1;
    keys
  }

  /** A source of these roots, of which no migration copies the last. */
  lemma RootLost(rules: Rules, overwrite: bool, closedAt: int, doc: Doc) returns (src: Source, lost: Key)
    requires closedAt > 0
    ensures ValidSource(src) && AllIn(src.docs, Order(src)) && lost in src.docs && lost.Root?
    ensures Run(rules, overwrite, map[], Plan(src, overwrite)).Some? ==>
              lost !in Run(rules, overwrite, map[], Plan(src, overwrite)).value
  {
    var roots := TiedRoots(closedAt);
    lost := roots[PAGE_SIZE];
    src := Source(map k <- roots :: doc, [], roots, [], [], [], []);
    TiesLost(roots, [0], [closedAt]);
    OnlyRoots(src, roots, doc);
    CopiedPlain(src);
    RootNotReached(src, lost);
    if Run(rules, overwrite, map[], Plan(src, overwrite)).Some? {
      ReceivedExactly(rules, src, overwrite, lost);
    }
  }

  lemma OnlyRoots(src: Source, roots: seq<Key>, doc: Doc)
    requires src == Source(map k <- roots :: doc, [], roots, [], [], [], []) && Paging.Sorted(roots, CursorOf)
    requires forall i | 0 <= i < |roots| :: roots[i].Root?
    ensures ValidSource(src)
  {
  }

  lemma RootNotReached(src: Source, lost: Key)
    requires AllListed(src) && lost.Root? && lost !in Paged(src.roots, [0])
    ensures !Reached(src, lost)
  {
    if lost in Copied(src) {
      var ps := PhasesOf(src);
      ReachedInPhase(src, ps, lost);
    }
  }

  // ---------- the loops ----------

  datatype End = Finished | Interrupted | Refused

  /** A migration: its rules, its flag and what the destination held before. */
  datatype Job = Job(rules: Rules, overwrite: bool, start: Store)

  function After(job: Job, ops: seq<Op>): Option<Store> { Run(job.rules, job.overwrite, job.start, ops) }

  /** `now` extends `was` by all of `plan`, or by a part of it if the phase was interrupted or ran into
      an error, which is then an error of the plan. */
  predicate Did(job: Job, was: seq<Op>, now: seq<Op>, plan: seq<Op>, end: End) {
    match end
    case Finished => now == was + plan
    case Interrupted => was <= now <= was + plan
    case Refused => was <= now <= was + plan && After(job, was + plan).None?
  }

  lemma DidMore(job: Job, was: seq<Op>, mid: seq<Op>, now: seq<Op>, first: seq<Op>, second: seq<Op>, end: End)
    requires mid == was + first && Did(job, mid, now, second, end)
    ensures Did(job, was, now, first + second, end)
  {
    assert was + (first + second) == mid + second;
  }

  lemma DidPart(job: Job, was: seq<Op>, now: seq<Op>, first: seq<Op>, rest: seq<Op>, end: End)
    requires !end.Finished? && Did(job, was, now, first, end)
    ensures Did(job, was, now, first + rest, end)
  {
    assert was + (first + rest) == was + first + rest;
    RunConcat(job.rules, job.overwrite, job.start, was + first, rest);
  }

  /** What is counted as skipped: a bundle the source does not have, and without the overwrite flag whatever
      the destination has, except roots and tiles. */
  predicate Skips(overwrite: bool, d: Store, op: Op) {
    op.Missing? || (!overwrite && op.key in d && !op.key.Root? && !op.key.Tile?)
  }

  /** The documents a series of operations writes. */
  ghost function WrittenBy(job: Job, ops: seq<Op>): multiset<Key>
    decreases |ops|
  {
    if ops == [] then multiset{}
    else
      var n := |ops| - 1;
      var before := After(job, ops[..n]);
      WrittenBy(job, ops[..n])
      + if before.Some? && !Skips(job.overwrite, before.value, ops[n]) then multiset{ops[n].key} else multiset{}
  }

  predicate SameAt(a: Store, b: Store, k: Key) { (k in a <==> k in b) && (k in a ==> a[k] == b[k]) }

  class Migrator {
    const job: Job
    const src: Source
    var dst: Store
    var left: nat                 // destination writes before the process is stopped
    var written: multiset<Key>
    var skipped: nat
    ghost var done: seq<Op>

    /** The destination is what the operations done so far make of it, and the report counts them all. */
    ghost predicate Valid()
      reads this
    {
      && After(job, done) == Some(dst)
      && written == WrittenBy(job, done) && |written| + skipped == |done|
    }

    constructor (job: Job, src: Source, left: nat)
      ensures Valid() && this.job == job && this.src == src && done == []
    {
      this.job, this.src, this.dst, this.left := job, src, job.start, left;
      written, skipped, done := multiset{}, 0, [];
    }

    method Skip(ghost op: Op)
      requires Valid() && Step(job.rules, job.overwrite, dst, op) == Some(dst) && Skips(job.overwrite, dst, op)
      modifies this
      ensures Valid() && done == old(done) + [op] && dst == old(dst)
    {
      skipped := skipped + 1;
      done := done + [op];
      assert done[..|done| - 1] == old(done);
    }

    /** One put; the process may be stopped before it. */
    method Write(key: Key, doc: Doc, ghost op: Op) returns (end: End)
      requires Valid() && Step(job.rules, job.overwrite, dst, op) == Some(dst[key := doc])
      requires !Skips(job.overwrite, dst, op) && op.key == key
      modifies this
      ensures Valid() && !end.Refused? && Did(job, old(done), done, [op], end)
      ensures dst == if end.Finished? then old(dst)[key := doc] else old(dst)
    {
      if left == 0 {
        return Interrupted;
      }
      left := left - 1;
      dst := dst[key := doc];
      written := written + multiset{key};
      done := done + [op];
      assert done[..|done| - 1] == old(done);
      end := Finished;
    }

    method CopyOne(key: Key) returns (end: End)
      requires Valid() && key in src.docs && !key.Schedule?
      modifies this
      ensures Valid() && Did(job, old(done), done, [OpFor(src.docs, job.overwrite, key)], end)
      ensures end.Refused? ==> Step(job.rules, job.overwrite, dst, OpFor(src.docs, job.overwrite, key)).None?
      ensures end.Refused? <==> job.overwrite && key in old(dst) && Conflicts(job.rules, src.docs, old(dst), key)
      ensures dst == if end.Finished? && !KeepsOwn(job.overwrite, old(dst), key) then old(dst)[key := src.docs[key]]
                     else old(dst)
    {
      ghost var op := OpFor(src.docs, job.overwrite, key);
      var always := key.Root? || key.Tile?;
      if !always && !job.overwrite && key in dst {
        Skip(op);
        return Finished;
      }
      if key.Result? && key in dst {
        if !job.rules.same(dst[key], src.docs[key]) {
          return Refused;
        }
        assert dst[key := dst[key]] == dst;
        end := Write(key, dst[key], op);
      } else {
        end := Write(key, src.docs[key], op);
      }
    }

    method CopyBundle(id: string) returns (end: End)
      requires Valid()
      modifies this
      ensures Valid() && !end.Refused? && Did(job, old(done), done, [BundleOp(src.docs, job.overwrite, id)], end)
      ensures forall k: Key | !k.Bundle? :: SameAt(old(dst), dst, k)
    {
      if Bundle(id) in src.docs {
        end := CopyOne(Bundle(id));
      } else {
        Skip(Missing(id));
        end := Finished;
      }
    }

    method CopyBundles(key: Key) returns (end: End)
      requires Valid() && key in src.docs && key.Manifest?
      modifies this
      ensures Valid() && !end.Refused?
              && Did(job, old(done), done, BundleOps(src.docs, job.overwrite, src.docs[key].records), end)
      ensures forall k: Key | !k.Bundle? :: SameAt(old(dst), dst, k)
    {
      var records := src.docs[key].records;
      ghost var ops := BundleOps(src.docs, job.overwrite, records);
      end := Finished;
      for i := 0 to |records|
        invariant Valid() && done == old(done) + ops[..i] && end.Finished?
        invariant forall k: Key | !k.Bundle? :: SameAt(old(dst), dst, k)
      {
        ghost var mid := done;
        end := CopyBundle(records[i]);
        OpDone(job, ops, i, old(done), mid, done, end);
        if !end.Finished? {
          return;
        }
      }
      assert ops[..|records|] == ops;
    }

    /** A manifest's bundles, then the manifest unless it was there before them. */
    method CopyManifest(key: Key) returns (end: End)
      requires Valid() && key in src.docs && key.Manifest?
      modifies this
      ensures Valid() && !end.Refused? && Did(job, old(done), done, OpsFor(src.docs, job.overwrite, key), end)
      ensures end.Finished? ==>
                key in dst && dst[key] == if !job.overwrite && key in old(dst) then old(dst)[key] else src.docs[key]
      ensures !end.Finished? || (!job.overwrite && key in old(dst)) ==> SameAt(old(dst), dst, key)
    {
      ghost var bundles, op := BundleOps(src.docs, job.overwrite, src.docs[key].records),
                               OpFor(src.docs, job.overwrite, key);
      var existed := !job.overwrite && key in dst;
      end := CopyBundles(key);
      assert SameAt(old(dst), dst, key);
      if !end.Finished? {
        DidPart(job, old(done), done, bundles, [op], end);
        return;
      }
      ghost var mid := done;
      if existed {
        Skip(op);
      } else {
        end := Write(key, src.docs[key], op);
      }
      DidMore(job, old(done), mid, done, bundles, [op], end);
    }

    method CopyKey(key: Key) returns (end: End)
      requires Valid() && key in src.docs && !key.Schedule?
      modifies this
      ensures Valid() && Did(job, old(done), done, OpsFor(src.docs, job.overwrite, key), end)
      ensures end.Refused? ==> Step(job.rules, job.overwrite, dst, OpFor(src.docs, job.overwrite, key)).None?
    {
      if key.Manifest? {
        end := CopyManifest(key);
      } else {
        end := CopyOne(key);
      }
    }

    method CopyKeys(keys: seq<Key>) returns (end: End)
      requires Valid() && Plain(src.docs, keys)
      modifies this
      ensures Valid() && Did(job, old(done), done, Ops(src.docs, job.overwrite, keys), end)
    {
      end := Finished;
      for i := 0 to |keys|
        invariant Valid() && Plain(src.docs, keys[..i])
                  && done == old(done) + Ops(src.docs, job.overwrite, keys[..i]) && end.Finished?
      {
        ghost var mid := done;
        end := CopyKey(keys[i]);
        KeyDone(job, src.docs, keys, i, old(done), mid, done, end);
        if !end.Finished? {
          return;
        }
      }
      assert keys[..|keys|] == keys;
    }

    method CopyPage(page: seq<Key>, ghost seen: seq<Key>, ghost next: seq<Key>, ghost whole: seq<Key>,
                    ghost was: seq<Op>)
      returns (end: End)
      requires Valid() && Plain(src.docs, seen) && Plain(src.docs, page + next) && Plain(src.docs, whole)
      requires whole == seen + (page + next) && done == was + Ops(src.docs, job.overwrite, seen)
      modifies this
      ensures Valid() && Plain(src.docs, seen + page) && Plain(src.docs, next) && whole == seen + page + next
      ensures if end.Finished? then done == was + Ops(src.docs, job.overwrite, seen + page)
              else Did(job, was, done, Ops(src.docs, job.overwrite, whole), end)
    {
      Parted(src.docs, page, next);
      end := CopyKeys(page);
      Joined(job, src.docs, seen, page, next, whole, was, old(done), done, end);
    }

    /** The loop over pages: the cursor becomes that of the last document of the page. */
    method CopyPaged(keys: seq<Key>, first: Paging.Cursor) returns (end: End)
      requires Valid() && Plain(src.docs, keys) && Paging.Sorted(keys, CursorOf)
      modifies this
      ensures Plain(src.docs, Paged(keys, first))
      ensures Valid() && Did(job, old(done), done, Ops(src.docs, job.overwrite, Paged(keys, first)), end)
    {
      ghost var whole := Paged(keys, first);
      PagedPlain(src.docs, keys, first);
      var after := first;
      ghost var seen, rest := [], whole;
      end := Finished;
      while true
        invariant Valid() && end.Finished? && Plain(src.docs, seen) && Plain(src.docs, rest)
        invariant OnTrack(keys, after, rest) && seen + rest == whole
        invariant done == old(done) + Ops(src.docs, job.overwrite, seen)
        decreases |rest|
      {
        var page := Paging.ListAfter(keys, CursorOf, after, PAGE_SIZE);
        ghost var next := NextPage(keys, after, rest, page);
        if page == [] {
          assert seen == whole;
          return;
        }
        end := CopyPage(page, seen, next, whole, old(done));
        if !end.Finished? {
          return;
        }
        after, seen, rest := CursorOf(page[|page| - 1]), seen + page, next;
      }
    }

    /** The next page of consecutive documents; `rest` are those still to come. */
    method CopyConsecutive(at: nat -> Key, n: nat, ghost seen: seq<Key>, ghost rest: seq<Key>, ghost whole: seq<Key>,
                           ghost was: seq<Op>)
      returns (end: End, page: seq<Key>, ghost next: seq<Key>)
      requires Valid() && Injective(at) && Consecutive(src.docs, at, n, rest) && seen + rest == whole
      requires Plain(src.docs, seen) && Plain(src.docs, rest) && Plain(src.docs, whole)
      requires done == was + Ops(src.docs, job.overwrite, seen)
      modifies this
      ensures Valid() && Consecutive(src.docs, at, n + |page|, next)
      ensures rest == page + next && (page == [] ==> rest == [])
      ensures Plain(src.docs, seen + page) && Plain(src.docs, next) && whole == seen + page + next
      ensures if end.Finished? then done == was + Ops(src.docs, job.overwrite, seen + page)
              else Did(job, was, done, Ops(src.docs, job.overwrite, whole), end)
    {
      page, next := NextConsecutive(src.docs, at, n, rest);
      end := CopyPage(page, seen, next, whole, was);
    }

    /** The loop over consecutive documents. */
    method CopyRange(at: nat -> Key, from: nat) returns (end: End)
      requires Valid() && Injective(at) && Plain(src.docs, Range(src.docs, at, from))
      modifies this
      ensures Valid() && Did(job, old(done), done, Ops(src.docs, job.overwrite, Range(src.docs, at, from)), end)
    {
      ConsecutiveIs(src.docs, at, from, Range(src.docs, at, from));
      end := CopyOnward(at, from, Range(src.docs, at, from));
    }

    method CopyOnward(at: nat -> Key, from: nat, ghost whole: seq<Key>) returns (end: End)
      requires Valid() && Injective(at) && Consecutive(src.docs, at, from, whole) && Plain(src.docs, whole)
      modifies this
      ensures Valid() && Did(job, old(done), done, Ops(src.docs, job.overwrite, whole), end)
    {
      var n: nat := from;
      ghost var seen, rest := [], whole;
      end := Finished;
      while true
        invariant Valid() && end.Finished? && Plain(src.docs, seen) && Plain(src.docs, rest)
        invariant Consecutive(src.docs, at, n, rest) && seen + rest == whole
        invariant done == old(done) + Ops(src.docs, job.overwrite, seen)
        decreases |rest|
      {
        var page;
        ghost var next;
        end, page, next := CopyConsecutive(at, n, seen, rest, whole, old(done));
        if !end.Finished? {
          return;
        }
        if page == [] {
          assert seen + page == whole;
          return;
        }
        n, seen, rest := n + |page|, seen + page, next;
      }
    }

    method RestoreSchedule(key: Key) returns (end: End)
      requires Valid() && key in src.docs && key.Schedule?
      modifies this
      ensures Valid() && Did(job, old(done), done, OpsFor(src.docs, job.overwrite, key), end)
    {
      ghost var op := OpFor(src.docs, job.overwrite, key);
      assert OpsFor(src.docs, job.overwrite, key) == [op];
      var cleared := job.rules.clearLease(src.docs[key]);
      if cleared.None? {
        RefusedNow(job, done, dst, op);
        return Refused;
      }
      if !job.overwrite && key in dst {
        Skip(op);
        return Finished;
      }
      var restored := job.rules.reconcile(cleared.value, Results(dst));
      if restored.None? {
        RefusedNow(job, done, dst, op);
        return Refused;
      }
      end := Write(key, restored.value, op);
    }

    method RestoreSchedules() returns (end: End)
      requires Valid() && AllIn(src.docs, src.schedules) && forall i | 0 <= i < |src.schedules| ::
               src.schedules[i].Schedule?
      modifies this
      ensures Valid() && Did(job, old(done), done, Ops(src.docs, job.overwrite, src.schedules), end)
    {
      var keys := src.schedules;
      end := Finished;
      for i := 0 to |keys|
        invariant Valid() && AllIn(src.docs, keys[..i])
                  && done == old(done) + Ops(src.docs, job.overwrite, keys[..i]) && end.Finished?
      {
        ghost var mid := done;
        end := RestoreSchedule(keys[i]);
        KeyDone(job, src.docs, keys, i, old(done), mid, done, end);
        if !end.Finished? {
          return;
        }
      }
      assert keys[..|keys|] == keys;
    }

    /** The whole migration carries out its plan, or a first part of it. */
    method Migrate() returns (end: End)
      requires Valid() && ValidSource(src) && done == []
      modifies this
      ensures Valid() && AllIn(src.docs, Order(src))
      ensures Did(job, [], done, Plan(src, job.overwrite), end)
    {
      CopiedPlain(src);
      PhasesPlain(src);
      ghost var ps := Phases(src);
      end := Proceed(ps, MarksOf(job, src.docs, ps), Flat(ps));
    }

    method Proceed(ghost ps: seq<seq<Key>>, ghost marks: seq<seq<Op>>, ghost keys: seq<Key>) returns (end: End)
      requires Valid() && Ready(src) && Names(src, ps) && Marked(job, src.docs, ps, marks) && done == []
      requires Plain(src.docs, keys) && marks[8] == Ops(src.docs, job.overwrite, keys) && AllIn(src.docs, src.schedules)
      requires forall i | 0 <= i < |src.schedules| :: src.schedules[i].Schedule?
      modifies this
      ensures AllIn(src.docs, keys + src.schedules)
      ensures Valid() && Did(job, [], done, Ops(src.docs, job.overwrite, keys + src.schedules), end)
    {
      end := CopyDocuments(ps, marks);
      if !end.Finished? {
        DidKeys(job, src.docs, keys, src.schedules, done, end);
        return;
      }
      end := ThenSchedules(keys);
    }

    method ThenSchedules(ghost keys: seq<Key>) returns (end: End)
      requires Valid() && AllIn(src.docs, keys) && AllIn(src.docs, src.schedules)
      requires done == Ops(src.docs, job.overwrite, keys)
      requires forall i | 0 <= i < |src.schedules| :: src.schedules[i].Schedule?
      modifies this
      ensures AllIn(src.docs, keys + src.schedules)
      ensures Valid() && Did(job, [], done, Ops(src.docs, job.overwrite, keys + src.schedules), end)
    {
      ghost var mid := done;
      end := RestoreSchedules();
      OpsConcat(src.docs, job.overwrite, keys, src.schedules);
      assert [] + mid == mid;
      DidMore(job, [], mid, done, mid, Ops(src.docs, job.overwrite, src.schedules), end);
    }

    /** The phases before the schedules; `ps` names what each copies. */
    method CopyDocuments(ghost ps: seq<seq<Key>>, ghost marks: seq<seq<Op>>) returns (end: End)
      requires Valid() && Ready(src) && Names(src, ps) && Marked(job, src.docs, ps, marks) && done == []
      modifies this
      ensures Valid() && Stage(job, marks, 8, done, end)
    {
      end := CopyProofs(ps, marks);
      if !end.Finished? { return; }
      end := CopyLeaves(ps, marks);
      if !end.Finished? { return; }
      end := CopyHeads(ps, marks);
      if !end.Finished? { return; }
      end := CopyAnchored(ps, marks);
    }

    method CopyProofs(ghost ps: seq<seq<Key>>, ghost marks: seq<seq<Op>>) returns (end: End)
      requires Valid() && Ready(src) && Names(src, ps) && Marked(job, src.docs, ps, marks) && done == marks[0]
      modifies this
      ensures Valid() && Stage(job, marks, 2, done, end)
    {
      end := PagedPhase(src.manifests, [], ps, marks, 0);
      if !end.Finished? { return; }
      end := PagedPhase(src.roots, [0], ps, marks, 1);
    }

    method CopyLeaves(ghost ps: seq<seq<Key>>, ghost marks: seq<seq<Op>>) returns (end: End)
      requires Valid() && Ready(src) && Names(src, ps) && Marked(job, src.docs, ps, marks) && done == marks[2]
      modifies this
      ensures Valid() && Stage(job, marks, 4, done, end)
    {
      end := RangePhase(LEAF_AT, 0, ps, marks, 2);
      if !end.Finished? { return; }
      end := PagedPhase(src.nodes, [], ps, marks, 3);
    }

    method CopyHeads(ghost ps: seq<seq<Key>>, ghost marks: seq<seq<Op>>) returns (end: End)
      requires Valid() && Ready(src) && Names(src, ps) && Marked(job, src.docs, ps, marks) && done == marks[4]
      modifies this
      ensures Valid() && Stage(job, marks, 6, done, end)
    {
      end := StatePhase(ps, marks, 4);
      if !end.Finished? { return; }
      end := RangePhase(STH_AT, 1, ps, marks, 5);
    }

    method CopyAnchored(ghost ps: seq<seq<Key>>, ghost marks: seq<seq<Op>>) returns (end: End)
      requires Valid() && Ready(src) && Names(src, ps) && Marked(job, src.docs, ps, marks) && done == marks[6]
      modifies this
      ensures Valid() && Stage(job, marks, 8, done, end)
    {
      end := PagedPhase(src.tiles, [], ps, marks, 6);
      if !end.Finished? { return; }
      end := PagedPhase(src.results, [], ps, marks, 7);
    }

    method StatePhase(ghost ps: seq<seq<Key>>, ghost marks: seq<seq<Op>>, ghost i: nat)
      returns (end: End)
      requires Valid()
      requires Marked(job, src.docs, ps, marks) && i < |ps| && ps[i] == StateKeys(src.docs) && done == marks[i]
      modifies this
      ensures Valid() && Stage(job, marks, i + 1, done, end)
    {
      end := CopyKeys(StateKeys(src.docs));
      StageDone(job, src.docs, ps, marks, i, done, end);
    }

    method PagedPhase(keys: seq<Key>, first: Paging.Cursor, ghost ps: seq<seq<Key>>, ghost marks: seq<seq<Op>>,
                      ghost i: nat)
      returns (end: End)
      requires Valid() && Plain(src.docs, keys) && Paging.Sorted(keys, CursorOf)
      requires Marked(job, src.docs, ps, marks) && i < |ps| && ps[i] == Paged(keys, first) && done == marks[i]
      modifies this
      ensures Valid() && Stage(job, marks, i + 1, done, end)
    {
      end := CopyPaged(keys, first);
      StageDone(job, src.docs, ps, marks, i, done, end);
    }

    method RangePhase(at: nat -> Key, from: nat, ghost ps: seq<seq<Key>>, ghost marks: seq<seq<Op>>, ghost i: nat)
      returns (end: End)
      requires Valid() && Injective(at)
      requires Marked(job, src.docs, ps, marks) && i < |ps| && ps[i] == Range(src.docs, at, from) && done == marks[i]
      modifies this
      ensures Valid() && Stage(job, marks, i + 1, done, end)
    {
      end := CopyRange(at, from);
      StageDone(job, src.docs, ps, marks, i, done, end);
    }
  }

  /** A migration stopped after any number of writes and started again: if the second run completes, the
      destination is what one uninterrupted run would have left. */
  method Again(job: Job, src: Source, writes: nat, more: nat) returns (end: End, dst: Store)
    requires ValidRules(job.rules) && ValidSource(src)
    ensures AllIn(src.docs, Order(src))
    ensures end.Finished? ==> After(job, Plan(src, job.overwrite)) == Some(dst)
    ensures Covered(src.docs, job.start) ==> Covered(src.docs, dst)
  {
    ghost var plan := Ordered(src, job.overwrite);
    ghost var done;
    end, dst, done := Once(job, src, writes, plan);
    Stopped(job, src, done, dst);
    ghost var was := dst;
    end, dst, done := Once(job.(start := dst), src, more, plan);
    Stopped(job.(start := was), src, done, dst);
  }

  lemma Ordered(src: Source, overwrite: bool) returns (plan: seq<Op>)
    requires ValidSource(src)
    ensures AllIn(src.docs, Order(src)) && plan == Plan(src, overwrite)
  {
    PlanOrderly(src, overwrite);
    plan := Plan(src, overwrite);
  }

  method Once(job: Job, src: Source, writes: nat, ghost plan: seq<Op>)
    returns (end: End, dst: Store, ghost done: seq<Op>)
    requires ValidSource(src) && AllIn(src.docs, Order(src)) && plan == Plan(src, job.overwrite)
    ensures done <= plan && After(job, done) == Some(dst) && (end.Finished? ==> done == plan)
  {
    var m := new Migrator(job, src, writes);
    end := m.Migrate();
    dst, done := m.dst, m.done;
    assert [] + plan == plan;
  }

  lemma Stopped(job: Job, src: Source, done: seq<Op>, dst: Store)
    requires ValidRules(job.rules) && ValidSource(src) && AllIn(src.docs, Order(src))
    requires done <= Plan(src, job.overwrite) && After(job, done) == Some(dst)
    ensures After(job.(start := dst), Plan(src, job.overwrite)) == After(job, Plan(src, job.overwrite))
    ensures Covered(src.docs, job.start) ==> Covered(src.docs, dst)
  {
    PlanOrderly(src, job.overwrite);
    StoppedAgrees(job, Plan(src, job.overwrite), done, dst);
    if Covered(src.docs, job.start) {
      StoppedCovered(job, src.docs, Order(src), done, dst);
    }
  }

  lemma StoppedAgrees(job: Job, ops: seq<Op>, done: seq<Op>, dst: Store)
    requires ValidRules(job.rules) && Orderly(ops) && done <= ops && After(job, done) == Some(dst)
    ensures After(job.(start := dst), ops) == After(job, ops)
  {
    assert done == ops[..|done|];
    Restart(job.rules, job.overwrite, job.start, ops, |done|);
  }

  lemma StoppedCovered(job: Job, docs: Store, keys: seq<Key>, done: seq<Op>, dst: Store)
    requires AllIn(docs, keys) && done <= Ops(docs, job.overwrite, keys) && After(job, done) == Some(dst)
    requires Covered(docs, job.start)
    ensures Covered(docs, dst)
  {
    assert done == Ops(docs, job.overwrite, keys)[..|done|];
    CoveredThroughout(job.rules, job.overwrite, docs, job.start, keys, |done|);
  }

  lemma DidKeys(job: Job, docs: Store, keys: seq<Key>, more: seq<Key>, now: seq<Op>, end: End)
    requires AllIn(docs, keys) && AllIn(docs, more) && !end.Finished?
    requires Did(job, [], now, Ops(docs, job.overwrite, keys), end)
    ensures AllIn(docs, keys + more) && Did(job, [], now, Ops(docs, job.overwrite, keys + more), end)
  {
    OpsConcat(docs, job.overwrite, keys, more);
    DidPart(job, [], now, Ops(docs, job.overwrite, keys), Ops(docs, job.overwrite, more), end);
  }

  lemma RefusedNow(job: Job, done: seq<Op>, dst: Store, op: Op)
    requires After(job, done) == Some(dst) && Step(job.rules, job.overwrite, dst, op).None?
    ensures After(job, done + [op]).None?
  {
    assert (done + [op])[..|done|] == done;
  }

  lemma OpDone(job: Job, ops: seq<Op>, i: nat, was: seq<Op>, mid: seq<Op>, now: seq<Op>, end: End)
    requires i < |ops| && mid == was + ops[..i] && Did(job, mid, now, [ops[i]], end) && !end.Refused?
    ensures if end.Finished? then now == was + ops[..i + 1] else Did(job, was, now, ops, end)
  {
    assert ops[..i + 1] == ops[..i] + [ops[i]];
    assert was + ops[..i] + [ops[i]] == was + ops[..i + 1];
    assert was + ops == was + ops[..i] + [ops[i]] + ops[i + 1..];
  }

  lemma KeyDone(job: Job, docs: Store, keys: seq<Key>, i: nat, was: seq<Op>, mid: seq<Op>, now: seq<Op>, end: End)
    requires AllIn(docs, keys) && i < |keys| && mid == was + Ops(docs, job.overwrite, keys[..i])
    requires Did(job, mid, now, OpsFor(docs, job.overwrite, keys[i]), end)
    ensures if end.Finished? then now == was + Ops(docs, job.overwrite, keys[..i + 1])
               else Did(job, was, now, Ops(docs, job.overwrite, keys), end)
  {
    assert keys[..i + 1][..i] == keys[..i];
    var first, second := Ops(docs, job.overwrite, keys[..i]), OpsFor(docs, job.overwrite, keys[i]);
    DidMore(job, was, mid, now, first, second, end);
    if !end.Finished? {
      var done, rest := keys[..i + 1], keys[i + 1..];
      assert keys == done + rest;
      assert AllIn(docs, rest) by { assert forall j | 0 <= j < |rest| :: rest[j] == keys[i + 1 + j]; }
      OpsConcat(docs, job.overwrite, done, rest);
      DidPart(job, was, now, first + second, Ops(docs, job.overwrite, keys[i + 1..]), end);
    }
  }

  /** The operations done before each phase, and after the last. */
  ghost predicate Marked(job: Job, docs: Store, phases: seq<seq<Key>>, marks: seq<seq<Op>>) {
    && |marks| == |phases| + 1 && marks[0] == [] && AllPlain(docs, phases)
    && (forall i | 0 <= i < |phases| :: marks[i + 1] == marks[i] + Ops(docs, job.overwrite, phases[i]))
  }

  /** What holds between phases: those so far are done, or a first part of all and the run is over. */
  ghost predicate Stage(job: Job, marks: seq<seq<Op>>, i: nat, now: seq<Op>, end: End)
    requires i < |marks|
  {
    if end.Finished? then now == marks[i] else Did(job, [], now, marks[|marks| - 1], end)
  }

  ghost function MarksOf(job: Job, docs: Store, phases: seq<seq<Key>>): (marks: seq<seq<Op>>)
    requires AllPlain(docs, phases)
    ensures Marked(job, docs, phases, marks)
    ensures Plain(docs, Flat(phases)) && marks[|phases|] == Ops(docs, job.overwrite, Flat(phases))
  {
    FlatPlain(docs, phases);
    if phases == [] then [[]]
    else
      var n := |phases| - 1;
      var before := MarksOf(job, docs, phases[..n]);
      OpsConcat(docs, job.overwrite, Flat(phases[..n]), phases[n]);
      MarkMore(job, docs, phases, before);
      before + [before[n] + Ops(docs, job.overwrite, phases[n])]
  }

  lemma MarkMore(job: Job, docs: Store, phases: seq<seq<Key>>, before: seq<seq<Op>>)
    requires phases != [] && AllPlain(docs, phases) && Marked(job, docs, phases[..|phases| - 1], before)
    ensures var n := |phases| - 1;
            Marked(job, docs, phases, before + [before[n] + Ops(docs, job.overwrite, phases[n])])
  {
    var n := |phases| - 1;
    var marks := before + [before[n] + Ops(docs, job.overwrite, phases[n])];
    assert forall i | 0 <= i < n :: phases[..n][i] == phases[i];
    assert forall i | 0 <= i <= n :: marks[i] == before[i];
  }

  lemma {:induction false} MarksGrow(job: Job, docs: Store, phases: seq<seq<Key>>, marks: seq<seq<Op>>, i: nat)
    requires Marked(job, docs, phases, marks) && i <= |phases|
    ensures marks[i] <= marks[|phases|]
    decreases |phases| - i
  {
    if i < |phases| {
      MarksGrow(job, docs, phases, marks, i + 1);
      assert marks[i + 1] == marks[i] + Ops(docs, job.overwrite, phases[i]);
    }
  }

  lemma StageDone(job: Job, docs: Store, phases: seq<seq<Key>>, marks: seq<seq<Op>>, i: nat, now: seq<Op>, end: End)
    requires Marked(job, docs, phases, marks) && i < |phases|
    requires Did(job, marks[i], now, Ops(docs, job.overwrite, phases[i]), end)
    ensures Stage(job, marks, i + 1, now, end)
  {
    var all := marks[|phases|];
    assert marks[i + 1] == marks[i] + Ops(docs, job.overwrite, phases[i]);
    if !end.Finished? {
      MarksGrow(job, docs, phases, marks, i + 1);
      var later := all[|marks[i + 1]|..];
      assert all == marks[i + 1] + later;
      assert [] + marks[i] == marks[i];
      DidMore(job, [], marks[i], now, marks[i], Ops(docs, job.overwrite, phases[i]), end);
      DidPart(job, [], now, marks[i + 1], later, end);
    }
  }

  // ---------- the counting phases ----------

  ghost predicate Injective(at: nat -> Key) { forall i: nat, j: nat | at(i) == at(j) :: i == j }

  lemma {:induction false} RangeFrame(docs: Store, at: nat -> Key, n: nat, k: Key)
    requires k in docs && forall i: nat | i >= n :: at(i) != k
    ensures Range(docs - {k}, at, n) == Range(docs, at, n)
    decreases |docs|
  {
    if at(n) in docs {
      Smaller(docs, at(n));
      RangeFrame(docs - {at(n)}, at, n + 1, k);
      assert docs - {at(n)} - {k} == docs - {k} - {at(n)};
    }
  }

  lemma RangeNext(docs: Store, at: nat -> Key, n: nat)
    requires Injective(at) && at(n) in docs
    ensures Range(docs, at, n) == [at(n)] + Range(docs, at, n + 1)
  {
    RangeFrame(docs, at, n + 1, at(n));
  }

  /** The documents from `n` up to the first gap, by position. */
  ghost predicate Consecutive(docs: Store, at: nat -> Key, n: nat, keys: seq<Key>) {
    && (forall i: nat | i < |keys| :: keys[i] == at(n + i) && keys[i] in docs)
    && at(n + |keys|) !in docs
  }

  lemma {:induction false} ConsecutiveIs(docs: Store, at: nat -> Key, n: nat, keys: seq<Key>)
    requires Injective(at)
    ensures Consecutive(docs, at, n, keys) <==> keys == Range(docs, at, n)
    decreases |keys|
  {
    RangeFirst(docs, at, n, keys);
    if keys != [] {
      ConsecutiveIs(docs, at, n + 1, keys[1..]);
      FirstConsecutive(docs, at, n, keys);
    }
  }

  lemma RangeFirst(docs: Store, at: nat -> Key, n: nat, keys: seq<Key>)
    requires Injective(at)
    ensures keys == Range(docs, at, n) <==>
              if keys == [] then at(n) !in docs
              else keys[0] == at(n) && at(n) in docs && keys[1..] == Range(docs, at, n + 1)
  {
    if at(n) in docs {
      RangeNext(docs, at, n);
      Led(keys, at(n), Range(docs, at, n + 1));
    }
  }

  lemma Led(keys: seq<Key>, k: Key, rest: seq<Key>)
    ensures keys == [k] + rest <==> keys != [] && keys[0] == k && keys[1..] == rest
  {
    assert ([k] + rest)[1..] == rest;
    assert keys != [] ==> keys == [keys[0]] + keys[1..];
  }

  lemma FirstConsecutive(docs: Store, at: nat -> Key, n: nat, keys: seq<Key>)
    requires keys != []
    ensures Consecutive(docs, at, n, keys) <==>
              keys[0] == at(n) && at(n) in docs && Consecutive(docs, at, n + 1, keys[1..])
  {
    var rest := keys[1..];
    if Consecutive(docs, at, n, keys) {
      forall i: nat | i < |rest| ensures rest[i] == at(n + 1 + i) && rest[i] in docs {
        assert rest[i] == keys[i + 1];
      }
    }
    if keys[0] == at(n) && at(n) in docs && Consecutive(docs, at, n + 1, rest) {
      forall i: nat | i < |keys| ensures keys[i] == at(n + i) && keys[i] in docs {
        if i > 0 { assert keys[i] == rest[i - 1] && rest[i - 1] == at(n + 1 + (i - 1)); }
      }
    }
  }

  /** Read one page of consecutive documents. */
  method ListRange(docs: Store, at: nat -> Key, n: nat, limit: nat, ghost whole: seq<Key>)
    returns (page: seq<Key>, ghost next: seq<Key>)
    requires Injective(at) && limit > 0 && whole == Range(docs, at, n)
    ensures next == Range(docs, at, n + |page|) && whole == page + next
    ensures page == [] ==> whole == []
  {
    page, next := [], whole;
    while |page| < limit
      invariant |page| <= limit && next == Range(docs, at, n + |page|) && whole == page + next
    {
      if at(n + |page|) !in docs {
        return;
      }
      RangeStep(docs, at, n + |page|, page, whole);
      page := page + [at(n + |page|)];
      next := Range(docs, at, n + |page|);
    }
  }

  method NextConsecutive(docs: Store, at: nat -> Key, n: nat, ghost rest: seq<Key>)
    returns (page: seq<Key>, ghost next: seq<Key>)
    requires Injective(at) && Consecutive(docs, at, n, rest)
    ensures Consecutive(docs, at, n + |page|, next) && rest == page + next && (page == [] ==> rest == [])
  {
    ConsecutiveIs(docs, at, n, rest);
    page, next := ListRange(docs, at, n, PAGE_SIZE, rest);
    ConsecutiveIs(docs, at, n + |page|, next);
  }

  lemma RangeStep(docs: Store, at: nat -> Key, i: nat, page: seq<Key>, whole: seq<Key>)
    requires Injective(at) && at(i) in docs && page + Range(docs, at, i) == whole
    ensures page + [at(i)] + Range(docs, at, i + 1) == whole
  {
    RangeNext(docs, at, i);
  }

  // ---------- the paged phases ----------

  /** What is still to come after a cursor. */
  ghost predicate OnTrack(keys: seq<Key>, after: Paging.Cursor, rest: seq<Key>) {
    rest == Paging.Seen(keys, CursorOf, Paging.Start(keys, CursorOf, after, 0), PAGE_SIZE)
  }

  lemma NextPage(keys: seq<Key>, after: Paging.Cursor, rest: seq<Key>, page: seq<Key>) returns (next: seq<Key>)
    requires Paging.Sorted(keys, CursorOf) && OnTrack(keys, after, rest)
             && page == Paging.Page(keys, CursorOf, after, PAGE_SIZE)
    ensures rest == page + next
    ensures if page == [] then next == [] else OnTrack(keys, CursorOf(page[|page| - 1]), next)
  {
    var i := Paging.Start(keys, CursorOf, after, 0);
    if i == |keys| {
      next := [];
    } else {
      var e := Paging.Upto(i, PAGE_SIZE, |keys|);
      Paging.NextStart(keys, CursorOf, e);
      assert page[|page| - 1] == keys[e - 1];
      next := Paging.Seen(keys, CursorOf, Paging.Start(keys, CursorOf, CursorOf(keys[e - 1]), e), PAGE_SIZE);
    }
  }

  lemma Parted(docs: Store, a: seq<Key>, b: seq<Key>)
    requires Plain(docs, a + b)
    ensures Plain(docs, a) && Plain(docs, b)
  {
    assert (a + b)[..|a|] == a && (a + b)[|a|..] == b;
    assert forall i | 0 <= i < |b| :: (a + b)[|a| + i] == b[i];
  }

  lemma Joined(job: Job, docs: Store, seen: seq<Key>, page: seq<Key>, next: seq<Key>, whole: seq<Key>, was: seq<Op>,
               mid: seq<Op>, now: seq<Op>, end: End)
    requires Plain(docs, seen) && Plain(docs, page) && Plain(docs, next) && Plain(docs, whole)
             && whole == seen + (page + next)
    requires mid == was + Ops(docs, job.overwrite, seen) && Did(job, mid, now, Ops(docs, job.overwrite, page), end)
    ensures Plain(docs, seen + page) && whole == (seen + page) + next
    ensures if end.Finished? then now == was + Ops(docs, job.overwrite, seen + page)
               else Did(job, was, now, Ops(docs, job.overwrite, whole), end)
  {
    assert whole == (seen + page) + next;
    OpsConcat(docs, job.overwrite, seen, page);
    DidMore(job, was, mid, now, Ops(docs, job.overwrite, seen), Ops(docs, job.overwrite, page), end);
    if !end.Finished? {
      OpsConcat(docs, job.overwrite, seen + page, next);
      DidPart(job, was, now, Ops(docs, job.overwrite, seen + page), Ops(docs, job.overwrite, next), end);
    }
  }
}
