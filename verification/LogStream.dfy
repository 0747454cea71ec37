/**
  Streaming log entries through the gRPC transport. Workers build and announce claims, the transport
  sends them and remembers what it sent, a server that may answer anything at any time answers, and
  the client checks every answer against the claim it announced. All of these run interleaved.
*/
module LogStream {
  import opened Wrappers
  import opened LogBatch

  datatype WorkerPC =
    | Idle
    | Building(i: nat)
    | HasClaim(i: nat, claim: Claim)   // built, not yet in the expected map
    | Sending(i: nat, claim: Claim)    // in the expected map, waiting for room in the channel
    | Failing(i: nat)
    | Exited

  datatype SenderPC = Waiting | Took(i: nat, claim: Claim) | Recorded(i: nat) | Stopped

  datatype ReceiverPC = Listening | Answered(index: int, reply: Reply) | Delivering(item: Item)

  datatype ConsumerPC = Ready | Checking(item: Item) | Emitting(item: Item)

  /** The client's workers, the map of claims it expects results for, and its channel to the transport. */
  datatype Client = Client(next: nat, workers: map<nat, WorkerPC>, expected: map<int, Claim>,
                           channel: seq<(nat, Claim)>)

  /** The transport's two goroutines, the map of claims it has sent, and its channel back. */
  datatype Wire = Wire(sender: SenderPC, sent: map<int, Claim>, receiver: ReceiverPC, native: seq<Item>)

  /** What the caller receives. */
  datatype Sink = Sink(consumer: ConsumerPC, out: seq<Item>)

  /** What has ever happened to an index. */
  datatype History = History(announced: set<int>, handed: set<int>)

  datatype State = State(client: Client, wire: Wire, sink: Sink, hist: History)

  /** The outcome of building the entry at each index, and the client's check of responses. */
  datatype Entries = Entries(build: nat -> Option<Claim>, accepts: Accepts)

  datatype Step =
    | Feed(w: nat) | Build(w: nat) | Announce(w: nat) | Send(w: nat) | GiveUp(w: nat) | Fail(w: nat, dropped: bool)
    | Take | Record | Write | WriteFails(dropped: bool)
    | Respond(index: int, reply: Reply) | LookUp | Push(dropped: bool) | StreamFails
    | Receive | Check | Emit(dropped: bool)

  predicate Init(s: State) {
    && s.client.next == 0 && (forall w <- s.client.workers :: s.client.workers[w] == Idle)
    && s.client.expected == map[] && s.client.channel == []
    && s.wire == Wire(Waiting, map[], Listening, [])
    && s.sink == Sink(Ready, []) && s.hist == History({}, {})
  }

  predicate At(s: State, w: nat) { w in s.client.workers }

  predicate Enabled(s: State, step: Step) {
    match step
    case Feed(w) => At(s, w) && s.client.workers[w].Idle?
    case Build(w) => At(s, w) && s.client.workers[w].Building?
    case Announce(w) => At(s, w) && s.client.workers[w].HasClaim?
    case Send(w) => At(s, w) && s.client.workers[w].Sending?
    case GiveUp(w) => At(s, w) && s.client.workers[w].Sending?
    case Fail(w, _) => At(s, w) && s.client.workers[w].Failing?
    case Take => s.wire.sender.Waiting? && s.client.channel != []
    case Record => s.wire.sender.Took?
    case Write => s.wire.sender.Recorded?
    case WriteFails(_) => s.wire.sender.Recorded?
    case Respond(_, _) => s.wire.receiver.Listening?
    case LookUp => s.wire.receiver.Answered?
    case Push(_) => s.wire.receiver.Delivering?
    case StreamFails => s.wire.receiver.Listening?
    case Receive => s.sink.consumer.Ready? && s.wire.native != []
    case Check => s.sink.consumer.Checking?
    case Emit(_) => s.sink.consumer.Emitting?
  }

  function Work(s: State, w: nat, pc: WorkerPC): Client {
    s.client.(workers := s.client.workers[w := pc])
  }

  function AppendUnless(items: seq<Item>, item: Item, dropped: bool): seq<Item> {
    if dropped then items else items + [item]
  }

  const FAILED := Item(-1, ZERO_RESULT, Some(NotSubmitted))

  /** The server's answer with the claim the transport remembers having sent, if it sent one. */
  function Answer(index: int, reply: Reply, cached: Claim): Item {
    match reply
    case ReplyError(code) => Item(index, ZERO_RESULT, Some(FromServer(code)))
    case ReplyNeither => Item(index, ZERO_RESULT, Some(Malformed))
    case ReplyResult(response) => Item(index, SubmitResult(cached, response), None)
  }

  /** The client's verdict on an item. */
  function Verdict(accepts: Accepts, expected: map<int, Claim>, item: Item): Item {
    if item.err.Some? then item
    else if item.index !in expected then item.(err := Some(Malformed))
    else if !Validates(accepts, expected[item.index], item.result) then item.(err := Some(Malformed))
    else item
  }

  function Apply(entries: Entries, s: State, step: Step): State
    requires Enabled(s, step)
  {
    match step
    case Feed(w) => s.(client := Work(s, w, Building(s.client.next)).(next := s.client.next + 1))
    case Build(w) =>
      var i := s.client.workers[w].i;
      s.(client := Work(s, w, if entries.build(i).Some? then HasClaim(i, entries.build(i).value) else Failing(i)))
    case Announce(w) =>
      var pc := s.client.workers[w];
      s.(client := Work(s, w, Sending(pc.i, pc.claim)).(expected := s.client.expected[pc.i := pc.claim]),
         hist := s.hist.(announced := s.hist.announced + {pc.i}))
    case Send(w) =>
      var pc := s.client.workers[w];
      s.(client := Work(s, w, Idle).(channel := s.client.channel + [(pc.i, pc.claim)]))
    case GiveUp(w) =>
      s.(client := Work(s, w, Exited).(expected := s.client.expected - {s.client.workers[w].i as int}))
    case Fail(w, dropped) =>
      var item := Item(s.client.workers[w].i, ZERO_RESULT, Some(BuildFailed));
      s.(client := Work(s, w, if dropped then Exited else Idle),
         sink := s.sink.(out := AppendUnless(s.sink.out, item, dropped)))
    case Take =>
      var (i, claim) := s.client.channel[0];
      s.(client := s.client.(channel := s.client.channel[1..]), wire := s.wire.(sender := Took(i, claim)),
         hist := s.hist.(handed := s.hist.handed + {i}))
    case Record =>
      s.(wire := s.wire.(sender := Recorded(s.wire.sender.i),
                         sent := s.wire.sent[s.wire.sender.i := s.wire.sender.claim]))
    case Write => s.(wire := s.wire.(sender := Waiting))
    case WriteFails(dropped) =>
      var item := Item(s.wire.sender.i, ZERO_RESULT, Some(NotSubmitted));
      s.(wire := s.wire.(sender := Stopped, native := AppendUnless(s.wire.native, item, dropped)))
    case Respond(index, reply) => s.(wire := s.wire.(receiver := Answered(index, reply)))
    case LookUp =>
      var index := s.wire.receiver.index;
      var cached := if index in s.wire.sent then s.wire.sent[index] else NoClaim;
      s.(wire := s.wire.(sent := s.wire.sent - {index},
                         receiver := Delivering(Answer(index, s.wire.receiver.reply, cached))))
    case Push(dropped) =>
      s.(wire := s.wire.(receiver := Listening, native := AppendUnless(s.wire.native, s.wire.receiver.item, dropped)))
    case StreamFails => s.(wire := s.wire.(native := s.wire.native + [FAILED]))
    case Receive =>
      s.(wire := s.wire.(native := s.wire.native[1..]), sink := s.sink.(consumer := Checking(s.wire.native[0])))
    case Check =>
      var item := s.sink.consumer.item;
      s.(client := s.client.(expected := s.client.expected - {item.index}),
         sink := s.sink.(consumer := Emitting(Verdict(entries.accepts, s.client.expected, item))))
    case Emit(dropped) =>
      s.(sink := Sink(Ready, AppendUnless(s.sink.out, s.sink.consumer.item, dropped)))
  }

  // ---------- the invariant ----------

  ghost predicate Own(entries: Entries, i: int, claim: Claim) {
    0 <= i && entries.build(i) == Some(claim)
  }

  predicate Busy(pc: WorkerPC) { pc.Building? || pc.HasClaim? || pc.Sending? || pc.Failing? }

  /** What holds of one worker. */
  ghost predicate WorkerOk(entries: Entries, s: State, pc: WorkerPC) {
    && (Busy(pc) ==> pc.i < s.client.next)
    && (pc.HasClaim? || pc.Sending? ==> Own(entries, pc.i, pc.claim))
    && (pc.Building? || pc.HasClaim? || pc.Failing? ==> pc.i !in s.hist.announced)
  }

  /** Every index is with one worker at a time and is announced at most once. */
  ghost predicate WorkersInv(entries: Entries, s: State) {
    && (forall w <- s.client.workers :: WorkerOk(entries, s, s.client.workers[w]))
    && (forall v, w :: v in s.client.workers && w in s.client.workers && v != w ==>
        Apart(s.client.workers[v], s.client.workers[w]))
    && (forall i <- s.hist.announced :: i < s.client.next)
  }

  predicate Apart(a: WorkerPC, b: WorkerPC) { Busy(a) && Busy(b) ==> a.i != b.i }

  ghost predicate MapsInv(entries: Entries, s: State) {
    && (forall i <- s.client.expected :: i in s.hist.announced && Own(entries, i, s.client.expected[i]))
    && (forall p <- s.client.channel :: Own(entries, p.0, p.1))
    && (s.wire.sender.Took? ==> Own(entries, s.wire.sender.i, s.wire.sender.claim) && s.wire.sender.i in s.hist.handed)
    && (forall i <- s.wire.sent :: i in s.hist.handed && Own(entries, i, s.wire.sent[i]))
  }

  /** An item that carries a claim carries the claim of its own index, which the transport was handed. */
  ghost predicate Honest(entries: Entries, s: State, item: Item) {
    item.result.claim.Signed? ==> item.index in s.hist.handed && Own(entries, item.index, item.result.claim)
  }

  ghost predicate ItemsInv(entries: Entries, s: State) {
    && (s.wire.receiver.Delivering? ==> Honest(entries, s, s.wire.receiver.item))
    && (forall item <- s.wire.native :: Honest(entries, s, item))
    && (s.sink.consumer.Checking? ==> Honest(entries, s, s.sink.consumer.item))
  }

  /** A success: handed over, checked against its own claim, and no longer expected. */
  ghost predicate Earned(entries: Entries, s: State, item: Item) {
    item.err.None? ==>
      && item.index in s.hist.handed && item.index in s.hist.announced && item.index !in s.client.expected
      && 0 <= item.index && entries.build(item.index).Some?
      && Validates(entries.accepts, entries.build(item.index).value, item.result)
  }

  ghost predicate SinkInv(entries: Entries, s: State) {
    && (forall item <- s.sink.out :: Earned(entries, s, item))
    && (s.sink.consumer.Emitting? ==> Earned(entries, s, s.sink.consumer.item))
    && (forall a, b :: 0 <= a < b < |s.sink.out| && s.sink.out[a].err.None? && s.sink.out[b].err.None? ==>
          s.sink.out[a].index != s.sink.out[b].index)
    && (s.sink.consumer.Emitting? && s.sink.consumer.item.err.None? ==>
          forall item <- s.sink.out :: item.err.None? ==> item.index != s.sink.consumer.item.index)
  }

  ghost predicate Inv(entries: Entries, s: State) {
    WorkersInv(entries, s) && MapsInv(entries, s) && ItemsInv(entries, s) && SinkInv(entries, s)
  }

  lemma InitInv(entries: Entries, s: State)
    requires Init(s)
    ensures Inv(entries, s)
  {}

  lemma WorkersKept(entries: Entries, s: State, step: Step)
    requires Inv(entries, s) && Enabled(s, step)
    ensures WorkersInv(entries, Apply(entries, s, step))
  {
    var s' := Apply(entries, s, step);
    forall w | w in s'.client.workers ensures WorkerOk(entries, s', s'.client.workers[w]) {
      assert w in s.client.workers && WorkerOk(entries, s, s.client.workers[w]);
      if step.Announce? && w != step.w { assert Apart(s.client.workers[w], s.client.workers[step.w]); }
    }
    forall v, w | v in s'.client.workers && w in s'.client.workers && v != w
      ensures Apart(s'.client.workers[v], s'.client.workers[w]) {
      assert Apart(s.client.workers[v], s.client.workers[w]);
      assert WorkerOk(entries, s, s.client.workers[v]) && WorkerOk(entries, s, s.client.workers[w]);
    }
  }

  lemma MapsKept(entries: Entries, s: State, step: Step)
    requires Inv(entries, s) && Enabled(s, step)
    ensures MapsInv(entries, Apply(entries, s, step))
  {}

  lemma ItemsKept(entries: Entries, s: State, step: Step)
    requires Inv(entries, s) && Enabled(s, step)
    ensures ItemsInv(entries, Apply(entries, s, step))
  {
    var s' := Apply(entries, s, step);
    if s.wire.native != [] { assert s.wire.native[0] in s.wire.native; }
    forall item | item in s'.wire.native ensures Honest(entries, s', item) {
      if item in s.wire.native { assert Honest(entries, s, item); }
    }
  }

  lemma SinkKept(entries: Entries, s: State, step: Step)
    requires Inv(entries, s) && Enabled(s, step)
    ensures SinkInv(entries, Apply(entries, s, step))
  {}

  lemma StepKeepsInv(entries: Entries, s: State, step: Step)
    requires Inv(entries, s) && Enabled(s, step)
    ensures Inv(entries, Apply(entries, s, step))
  {
    WorkersKept(entries, s, step);
    MapsKept(entries, s, step);
    ItemsKept(entries, s, step);
    SinkKept(entries, s, step);
  }

  // ---------- runs ----------

  ghost predicate IsRun(entries: Entries, s: State, steps: seq<Step>)
    decreases |steps|
  {
    steps == [] || (Enabled(s, steps[0]) && IsRun(entries, Apply(entries, s, steps[0]), steps[1..]))
  }

  ghost function End(entries: Entries, s: State, steps: seq<Step>): State
    requires IsRun(entries, s, steps)
    decreases |steps|
  {
    if steps == [] then s else End(entries, Apply(entries, s, steps[0]), steps[1..])
  }

  lemma {:induction false} RunKeepsInv(entries: Entries, s: State, steps: seq<Step>)
    requires Inv(entries, s) && IsRun(entries, s, steps)
    ensures Inv(entries, End(entries, s, steps))
    decreases |steps|
  {
    if steps != [] {
      StepKeepsInv(entries, s, steps[0]);
      RunKeepsInv(entries, Apply(entries, s, steps[0]), steps[1..]);
    }
  }

  /** In every interleaving and for every server: a success the caller receives is for an index the
      transport was handed, stands up against that entry's own claim, and is the only one for it. */
  lemma EverySuccessEarned(entries: Entries, s0: State, steps: seq<Step>, a: nat)
    requires Init(s0) && IsRun(entries, s0, steps)
    requires var out := End(entries, s0, steps).sink.out; a < |out| && out[a].err.None?
    ensures var s := End(entries, s0, steps);
            var item := s.sink.out[a];
            && item.index in s.hist.handed
            && 0 <= item.index && entries.build(item.index).Some?
            && Validates(entries.accepts, entries.build(item.index).value, item.result)
            && forall b :: 0 <= b < |s.sink.out| && b != a && s.sink.out[b].err.None? ==>
               s.sink.out[b].index != item.index
  {
    InitInv(entries, s0);
    RunKeepsInv(entries, s0, steps);
    var s := End(entries, s0, steps);
    assert Earned(entries, s, s.sink.out[a]);
    forall b | 0 <= b < |s.sink.out| && b != a && s.sink.out[b].err.None?
      ensures s.sink.out[b].index != s.sink.out[a].index {
      if b < a { assert s.sink.out[b].index != s.sink.out[a].index; }
    }
  }

  // ---------- a success ----------

  /** What the caller is given for an index the transport has sent, when the server answers it with a response. */
  ghost function Given(entries: Entries, s: State, i: nat, response: Response): Item
    requires entries.build(i).Some?
  {
    var claim := entries.build(i).value;
    Item(i, SubmitResult(claim, response),
         if i in s.client.expected && claim.Signed? && entries.accepts(claim, response) then None else Some(Malformed))
  }

  /** The steps that take one answer through to the caller. */
  function Through(i: nat, response: Response): seq<Step> {
    [Respond(i, ReplyResult(response)), LookUp, Push(false)] + [Receive, Check, Emit(false)]
  }

  /** In every reachable state: a response to an index that was sent reaches the caller with the entry's own
      claim, as a success if and only if the index is still expected and the response is accepted. */
  lemma AnswerDelivered(entries: Entries, s0: State, steps: seq<Step>, i: nat, response: Response)
    requires Init(s0) && IsRun(entries, s0, steps)
    requires var s := End(entries, s0, steps);
             i in s.wire.sent && s.wire.receiver.Listening? && s.wire.native == [] && s.sink.consumer.Ready?
    ensures var s := End(entries, s0, steps);
            && entries.build(i).Some? && IsRun(entries, s, Through(i, response))
            && End(entries, s, Through(i, response)).sink.out == s.sink.out + [Given(entries, s, i, response)]
  {
    InitInv(entries, s0);
    RunKeepsInv(entries, s0, steps);
    var s := End(entries, s0, steps);
    var claim := s.wire.sent[i];
    assert Own(entries, i, claim);
    var a, b := [Respond(i, ReplyResult(response)), LookUp, Push(false)], [Receive, Check, Emit(false)];
    var s1 := Arrives(entries, s, i, response);
    ConsumerPasses(entries, s1, Item(i, SubmitResult(claim, response), None));
    RunsOn(entries, s, a, b);
  }

  lemma Arrives(entries: Entries, s: State, i: nat, response: Response) returns (s1: State)
    requires i in s.wire.sent && s.wire.receiver.Listening? && s.wire.native == []
    ensures var a := [Respond(i, ReplyResult(response)), LookUp, Push(false)];
            IsRun(entries, s, a) && s1 == End(entries, s, a)
    ensures s1.client == s.client && s1.sink == s.sink
    ensures s1.wire.native == [Item(i, SubmitResult(s.wire.sent[i], response), None)]
  {
    var a := [Respond(i, ReplyResult(response)), LookUp, Push(false)];
    var t1 := Apply(entries, s, a[0]);
    var t2 := Apply(entries, t1, a[1]);
    s1 := Apply(entries, t2, a[2]);
    assert a[1..] == [LookUp, Push(false)] && a[1..][1..] == [Push(false)];
    OneStep(entries, t2, Push(false));
  }

  lemma ConsumerPasses(entries: Entries, s: State, item: Item)
    requires s.wire.native == [item] && s.sink.consumer.Ready? && item.err.None?
    requires item.index in s.client.expected ==> s.client.expected[item.index] == item.result.claim
    ensures var b := [Receive, Check, Emit(false)];
            && IsRun(entries, s, b)
            && End(entries, s, b).sink.out == s.sink.out +
               [item.(err := if && item.index in s.client.expected && item.result.claim.Signed?
                                && entries.accepts(item.result.claim, item.result.response)
                             then None else Some(Malformed))]
  {
    var b := [Receive, Check, Emit(false)];
    var t1 := Apply(entries, s, b[0]);
    var t2 := Apply(entries, t1, b[1]);
    assert b[1..] == [Check, Emit(false)] && b[1..][1..] == [Emit(false)];
    OneStep(entries, t2, Emit(false));
  }

  lemma OneStep(entries: Entries, s: State, step: Step)
    requires Enabled(s, step)
    ensures IsRun(entries, s, [step]) && End(entries, s, [step]) == Apply(entries, s, step)
  {
    assert [step][1..] == [];
  }

  lemma {:induction false} RunsOn(entries: Entries, s: State, a: seq<Step>, b: seq<Step>)
    requires IsRun(entries, s, a) && IsRun(entries, End(entries, s, a), b)
    ensures IsRun(entries, s, a + b) && End(entries, s, a + b) == End(entries, End(entries, s, a), b)
    decreases |a|
  {
    if a == [] {
      assert a + b == b;
    } else {
      RunsOn(entries, Apply(entries, s, a[0]), a[1..], b);
      assert (a + b)[1..] == a[1..] + b;
    }
  }

  /** An entry that cannot be built is reported with its own index. */
  lemma FailureDelivered(entries: Entries, s: State, w: nat)
    requires At(s, w) && s.client.workers[w].Idle? && entries.build(s.client.next).None?
    ensures var steps := [Feed(w), Build(w), Fail(w, false)];
            && IsRun(entries, s, steps)
            && End(entries, s, steps).sink.out == s.sink.out + [Item(s.client.next, ZERO_RESULT, Some(BuildFailed))]
            && End(entries, s, steps).client.next == s.client.next + 1
  {
    var steps := [Feed(w), Build(w), Fail(w, false)];
    var t1 := Apply(entries, s, steps[0]);
    var t2 := Apply(entries, t1, steps[1]);
    assert steps[1..] == [Build(w), Fail(w, false)] && steps[1..][1..] == [Fail(w, false)];
    OneStep(entries, t2, Fail(w, false));
  }

  /** An entry that is built is expected, and sent with its own claim. */
  lemma ClaimSent(entries: Entries, s: State, w: nat, claim: Claim) returns (s': State)
    requires At(s, w) && s.client.workers[w].Idle? && entries.build(s.client.next) == Some(claim)
    requires s.client.channel == [] && s.wire.sender.Waiting?
    ensures var steps := [Feed(w), Build(w), Announce(w), Send(w)] + [Take, Record, Write];
            IsRun(entries, s, steps) && s' == End(entries, s, steps)
    ensures var i := s.client.next;
            && s'.client.expected == s.client.expected[i := claim] && s'.wire.sent == s.wire.sent[i := claim]
            && s'.client.channel == [] && s'.sink == s.sink && s'.wire.receiver == s.wire.receiver
            && s'.wire.native == s.wire.native
  {
    var t := Announced(entries, s, w, claim);
    s' := SentOff(entries, t, s.client.next, claim);
    RunsOn(entries, s, [Feed(w), Build(w), Announce(w), Send(w)], [Take, Record, Write]);
  }

  lemma Announced(entries: Entries, s: State, w: nat, claim: Claim) returns (s': State)
    requires At(s, w) && s.client.workers[w].Idle? && entries.build(s.client.next) == Some(claim)
    requires s.client.channel == []
    ensures var steps := [Feed(w), Build(w), Announce(w), Send(w)];
            IsRun(entries, s, steps) && s' == End(entries, s, steps)
    ensures s'.client.expected == s.client.expected[s.client.next := claim]
    ensures s'.client.channel == [(s.client.next, claim)] && s'.wire == s.wire && s'.sink == s.sink
  {
    var steps := [Feed(w), Build(w), Announce(w), Send(w)];
    var t1 := Apply(entries, s, steps[0]);
    var t2 := Apply(entries, t1, steps[1]);
    var t3 := Apply(entries, t2, steps[2]);
    s' := Apply(entries, t3, steps[3]);
    assert steps[1..] == [Build(w), Announce(w), Send(w)];
    assert steps[1..][1..] == [Announce(w), Send(w)] && steps[1..][1..][1..] == [Send(w)];
    OneStep(entries, t3, Send(w));
    assert IsRun(entries, t2, steps[1..][1..]) && End(entries, t2, steps[1..][1..]) == s';
    assert IsRun(entries, t1, steps[1..]) && End(entries, t1, steps[1..]) == s';
  }

  lemma SentOff(entries: Entries, s: State, i: nat, claim: Claim) returns (s': State)
    requires s.client.channel == [(i, claim)] && s.wire.sender.Waiting?
    ensures var steps := [Take, Record, Write]; IsRun(entries, s, steps) && s' == End(entries, s, steps)
    ensures s'.client == s.client.(channel := []) && s'.sink == s.sink
    ensures s'.wire == s.wire.(sent := s.wire.sent[i := claim])
  {
    var steps := [Take, Record, Write];
    var t1 := Apply(entries, s, steps[0]);
    var t2 := Apply(entries, t1, steps[1]);
    s' := Apply(entries, t2, steps[2]);
    assert steps[1..] == [Record, Write] && steps[1..][1..] == [Write];
    OneStep(entries, t2, Write);
  }
}
