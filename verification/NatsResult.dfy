/**
  Recovering the result of a NATS submission: subscribe, make sure the subscription is active, read the
  durable snapshot, and only then wait. Any number of waiters and publishers run interleaved with a
  broker that stores and routes a publish in one step.
*/
module NatsResult {
  import opened Wrappers

  type Message = int

  // ---------- subjects ----------

  predicate HasSuffix(s: string, t: string) { |t| <= |s| && s[|s| - |t|..] == t }

  predicate HasDoubleDot(s: string) { exists i :: 0 <= i < |s| - 1 && s[i] == '.' && s[i + 1] == '.' }

  predicate ConcreteSubject(s: string) {
    && s != "" && '*' !in s && '>' !in s && ' ' !in s && '\t' !in s && '\r' !in s && '\n' !in s
    && s[0] != '.' && s[|s| - 1] != '.' && !HasDoubleDot(s)
  }

  /** A pattern is a concrete subject followed by ".*". */
  predicate ResultPattern(p: string) {
    HasSuffix(p, ".*") && ConcreteSubject(p[..|p| - 2])
  }

  function ResultSubject(pattern: string, messageID: string, blank: string -> bool): Option<string> {
    if !ResultPattern(pattern) || blank(messageID) then None
    else Some(pattern[..|pattern| - 1] + messageID)
  }

  /** There is a result subject if and only if the pattern is a concrete subject followed by ".*" and the ID is
      not blank: that subject, a dot and the ID. */
  lemma SubjectForm(pattern: string, messageID: string, blank: string -> bool)
    ensures ResultSubject(pattern, messageID, blank).Some? <==>
              !blank(messageID) && exists base :: ConcreteSubject(base) && pattern == base + ".*"
    ensures forall base | ConcreteSubject(base) && pattern == base + ".*" && !blank(messageID) ::
              ResultSubject(pattern, messageID, blank) == Some(base + "." + messageID)
  {
    if ResultPattern(pattern) {
      var base := pattern[..|pattern| - 2];
      assert pattern == base + pattern[|pattern| - 2..];
      assert ConcreteSubject(base) && pattern == base + ".*";
    }
    forall base | ConcreteSubject(base) && pattern == base + ".*"
      ensures ResultPattern(pattern) && pattern[..|pattern| - 1] == base + "."
    {
      assert pattern[..|pattern| - 2] == base && pattern[|pattern| - 2..] == ".*";
    }
  }

  /** Results of different submissions have different subjects. */
  lemma SubjectsDiffer(pattern: string, a: string, b: string, blank: string -> bool)
    requires ResultSubject(pattern, a, blank).Some?
             && ResultSubject(pattern, a, blank) == ResultSubject(pattern, b, blank)
    ensures a == b
  {
    var n := |pattern| - 1;
    assert ResultSubject(pattern, a, blank).value[n..] == a;
    assert ResultSubject(pattern, b, blank).value[n..] == b;
  }

  // ---------- the protocol ----------

  datatype StreamConfig = StreamConfig(maxMsgsPerSubject: int, discardNew: bool, discardNewPerSubject: bool)

  /** What the client insists on before it uses a result stream. */
  predicate EnforcesOneResult(cfg: StreamConfig) {
    cfg.maxMsgsPerSubject == 1 && cfg.discardNew && cfg.discardNewPerSubject
  }

  datatype WaiterPC = Start | Subscribing | Active | Waiting | Took(message: Message) | Failed

  /** The broker's view of a subscription; once bounded it gets at most one message. */
  datatype Sub = Sub(live: bool, bounded: bool, delivered: nat, queue: seq<Message>)

  datatype Waiter = Waiter(subject: string, pc: WaiterPC, sub: Sub)

  datatype State = State(stored: map<string, Message>, waiters: map<nat, Waiter>)

  predicate Init(s: State) {
    && s.stored == map[]
    && forall w <- s.waiters :: s.waiters[w].pc == Start && s.waiters[w].sub == Sub(false, false, 0, [])
  }

  datatype Step =
    | Subscribe(w: nat)
    | Activate(w: nat)      // the broker processes the subscription
    | Bound(w: nat)         // the broker processes the limit of one message
    | Flush(w: nat)         // the client's ping comes back: both were processed
    | Read(w: nat)          // the durable snapshot
    | Next(w: nat)          // the live subscription
    | Cancel(w: nat)
    | Publish(subject: string, message: Message, routed: bool)  // `routed` matters for a rejected publish only

  predicate Enabled(s: State, step: Step) {
    match step
    case Subscribe(w) => w in s.waiters && s.waiters[w].pc.Start?
    case Activate(w) => w in s.waiters && s.waiters[w].pc.Subscribing? && !s.waiters[w].sub.live
    case Bound(w) => w in s.waiters && s.waiters[w].sub.live && !s.waiters[w].sub.bounded
    case Flush(w) => w in s.waiters && s.waiters[w].pc.Subscribing? && s.waiters[w].sub.bounded
    case Read(w) => w in s.waiters && s.waiters[w].pc.Active?
    case Next(w) => w in s.waiters && s.waiters[w].pc.Waiting? && s.waiters[w].sub.queue != []
    case Cancel(w) => w in s.waiters
    case Publish(_, _, _) => true
  }

  function Set(s: State, w: nat, waiter: Waiter): State {
    s.(waiters := s.waiters[w := waiter])
  }

  function Deliver(sub: Sub, m: Message): Sub {
    if !sub.live || (sub.bounded && sub.delivered >= 1) then sub
    else sub.(delivered := sub.delivered + 1, queue := sub.queue + [m])
  }

  function Route(waiters: map<nat, Waiter>, subject: string, m: Message): map<nat, Waiter> {
    map w <- waiters ::
      if waiters[w].subject == subject then waiters[w].(sub := Deliver(waiters[w].sub, m)) else waiters[w]
  }

  /** A first publish is stored and routed. A later one is rejected if the stream enforces one result,
      and replaces the stored one otherwise; core routing may show it to subscribers either way. */
  function Apply(cfg: StreamConfig, s: State, step: Step): State
    requires Enabled(s, step)
  {
    match step
    case Subscribe(w) => Set(s, w, s.waiters[w].(pc := Subscribing))
    case Activate(w) => Set(s, w, s.waiters[w].(sub := s.waiters[w].sub.(live := true)))
    case Bound(w) => Set(s, w, s.waiters[w].(sub := s.waiters[w].sub.(bounded := true)))
    case Flush(w) => Set(s, w, s.waiters[w].(pc := Active))
    case Read(w) =>
      var subject := s.waiters[w].subject;
      Set(s, w, s.waiters[w].(pc := if subject in s.stored then Took(s.stored[subject]) else Waiting))
    case Next(w) => Set(s, w, s.waiters[w].(pc := Took(s.waiters[w].sub.queue[0])))
    case Cancel(w) => Set(s, w, s.waiters[w].(pc := Failed))
    case Publish(subject, m, routed) =>
      if subject !in s.stored then State(s.stored[subject := m], Route(s.waiters, subject, m))
      else
        State(if EnforcesOneResult(cfg) then s.stored else s.stored[subject := m],
              if routed then Route(s.waiters, subject, m) else s.waiters)
  }

  // ---------- the invariant ----------

  /** Before the commit nothing was delivered; from the commit on, a waiter that relies on its
      subscription finds the stored message at the head of its queue. */
  ghost predicate WaiterOk(stored: map<string, Message>, waiter: Waiter) {
    && (waiter.pc.Start? ==> !waiter.sub.live)
    && (waiter.pc.Active? || waiter.pc.Waiting? || waiter.sub.bounded ==> waiter.sub.live)
    && (waiter.subject !in stored ==> waiter.sub.delivered == 0 && waiter.sub.queue == [] && !waiter.pc.Took?)
    && (waiter.subject in stored && waiter.pc.Waiting? ==>
          waiter.sub.queue != [] && waiter.sub.queue[0] == stored[waiter.subject])
    && (waiter.pc.Took? ==> waiter.subject in stored && waiter.pc.message == stored[waiter.subject])
  }

  ghost predicate Inv(s: State) {
    forall w <- s.waiters :: WaiterOk(s.stored, s.waiters[w])
  }

  lemma StepKeepsInv(cfg: StreamConfig, s: State, step: Step)
    requires EnforcesOneResult(cfg) && Inv(s) && Enabled(s, step)
    ensures Inv(Apply(cfg, s, step))
    ensures forall k <- s.stored :: k in Apply(cfg, s, step).stored && Apply(cfg, s, step).stored[k] == s.stored[k]
  {
    var s' := Apply(cfg, s, step);
    forall w | w in s'.waiters ensures WaiterOk(s'.stored, s'.waiters[w]) {
      assert w in s.waiters && WaiterOk(s.stored, s.waiters[w]);
    }
  }

  ghost predicate IsRun(cfg: StreamConfig, s: State, steps: seq<Step>)
    decreases |steps|
  {
    steps == [] || (Enabled(s, steps[0]) && IsRun(cfg, Apply(cfg, s, steps[0]), steps[1..]))
  }

  ghost function End(cfg: StreamConfig, s: State, steps: seq<Step>): State
    requires IsRun(cfg, s, steps)
    decreases |steps|
  {
    if steps == [] then s else End(cfg, Apply(cfg, s, steps[0]), steps[1..])
  }

  lemma {:induction false} RunKeepsInv(cfg: StreamConfig, s: State, steps: seq<Step>)
    requires EnforcesOneResult(cfg) && Inv(s) && IsRun(cfg, s, steps)
    ensures Inv(End(cfg, s, steps))
    ensures forall k <- s.stored :: k in End(cfg, s, steps).stored && End(cfg, s, steps).stored[k] == s.stored[k]
    decreases |steps|
  {
    if steps != [] {
      StepKeepsInv(cfg, s, steps[0]);
      RunKeepsInv(cfg, Apply(cfg, s, steps[0]), steps[1..]);
    }
  }

  /** Whatever interleaving: a waiter takes exactly the stored result, the result never changes in any
      continuation, and two waiters for one subject agree. */
  lemma WaitersAgree(cfg: StreamConfig, s0: State, steps: seq<Step>, more: seq<Step>, v: nat, w: nat)
    requires EnforcesOneResult(cfg) && Init(s0) && IsRun(cfg, s0, steps) && IsRun(cfg, End(cfg, s0, steps), more)
    requires var s := End(cfg, s0, steps); v in s.waiters && s.waiters[v].pc.Took?
    requires var t := End(cfg, End(cfg, s0, steps), more); w in t.waiters && t.waiters[w].pc.Took?
    requires End(cfg, s0, steps).waiters[v].subject == End(cfg, End(cfg, s0, steps), more).waiters[w].subject
    ensures var s, t := End(cfg, s0, steps), End(cfg, End(cfg, s0, steps), more);
            var subject := s.waiters[v].subject;
            && subject in s.stored && s.waiters[v].pc.message == s.stored[subject]
            && t.waiters[w].pc.message == s.waiters[v].pc.message
  {
    RunKeepsInv(cfg, s0, steps);
    var s := End(cfg, s0, steps);
    RunKeepsInv(cfg, s, more);
    var t := End(cfg, s, more);
    assert WaiterOk(s.stored, s.waiters[v]) && WaiterOk(t.stored, t.waiters[w]);
  }

  /** Once the result is committed no waiter is left waiting on an empty subscription. */
  lemma NeverLeftWaiting(cfg: StreamConfig, s0: State, steps: seq<Step>, w: nat)
    requires EnforcesOneResult(cfg) && Init(s0) && IsRun(cfg, s0, steps)
    requires var s := End(cfg, s0, steps);
             w in s.waiters && s.waiters[w].pc.Waiting? && s.waiters[w].subject in s.stored
    ensures var s := End(cfg, s0, steps);
            && Enabled(s, Next(w)) && s.waiters[w].sub.queue[0] == s.stored[s.waiters[w].subject]
            && Apply(cfg, s, Next(w)).waiters[w].pc == Took(s.stored[s.waiters[w].subject])
  {
    RunKeepsInv(cfg, s0, steps);
    var s := End(cfg, s0, steps);
    assert WaiterOk(s.stored, s.waiters[w]);
  }

  /** Without the configuration check the promise fails: on any other stream two waiters that read the
      snapshot around a second publish take different results. */
  lemma OtherStreamsDisagree(cfg: StreamConfig, subject: string) returns (s0: State, steps: seq<Step>)
    requires !EnforcesOneResult(cfg)
    ensures Init(s0) && IsRun(cfg, s0, steps)
    ensures var s := End(cfg, s0, steps);
            && 0 in s.waiters && s.waiters[0].subject == subject && s.waiters[0].pc == Took(1)
            && 1 in s.waiters && s.waiters[1].subject == subject && s.waiters[1].pc == Took(2)
  {
    var idle := Waiter(subject, Start, Sub(false, false, 0, []));
    s0 := State(map[], map[0 := idle, 1 := idle]);
    var a := [Publish(subject, 1, false), Subscribe(0), Activate(0), Bound(0), Flush(0), Read(0)];
    var b := [Publish(subject, 2, false), Subscribe(1), Activate(1), Bound(1), Flush(1), Read(1)];
    var s1 := RunOne(cfg, s0, subject, 0, 1, a);
    var s2 := RunOne(cfg, s1, subject, 1, 2, b);
    RunJoined(cfg, s0, a, b);
    steps := a + b;
  }

  /** One waiter subscribes and reads right after a publish. */
  lemma RunOne(cfg: StreamConfig, s: State, subject: string, w: nat, m: Message, steps: seq<Step>) returns (s': State)
    requires w in s.waiters && s.waiters[w] == Waiter(subject, Start, Sub(false, false, 0, []))
    requires subject !in s.stored || !EnforcesOneResult(cfg)
    requires steps == [Publish(subject, m, false), Subscribe(w), Activate(w), Bound(w), Flush(w), Read(w)]
    ensures IsRun(cfg, s, steps) && s' == End(cfg, s, steps)
    ensures s'.waiters.Keys == s.waiters.Keys && w in s'.waiters && s'.waiters[w].subject == subject
            && s'.waiters[w].pc == Took(m)
    ensures forall v <- s.waiters :: v != w ==>
              if s.waiters[v].sub.live
              then s'.waiters[v].pc == s.waiters[v].pc && s'.waiters[v].subject == s.waiters[v].subject
              else s'.waiters[v] == s.waiters[v]
    ensures subject in s'.stored
  {
    var s1 := Apply(cfg, s, steps[0]);
    assert s1.stored[subject] == m && s1.waiters[w] == s.waiters[w];
    var s2, s3, s4, s5;
    s2, s3, s4, s5, s' := TakesStored(cfg, s1, subject, w);
    RunSix(cfg, s, steps, s1, s2, s3, s4, s5, s');
  }

  /** A waiter that starts when the result is stored takes it. */
  lemma TakesStored(cfg: StreamConfig, s1: State, subject: string, w: nat)
    returns (s2: State, s3: State, s4: State, s5: State, s6: State)
    requires w in s1.waiters && s1.waiters[w] == Waiter(subject, Start, Sub(false, false, 0, []))
    requires subject in s1.stored
    ensures Enabled(s1, Subscribe(w)) && s2 == Apply(cfg, s1, Subscribe(w))
    ensures Enabled(s2, Activate(w)) && s3 == Apply(cfg, s2, Activate(w))
    ensures Enabled(s3, Bound(w)) && s4 == Apply(cfg, s3, Bound(w))
    ensures Enabled(s4, Flush(w)) && s5 == Apply(cfg, s4, Flush(w))
    ensures Enabled(s5, Read(w)) && s6 == Apply(cfg, s5, Read(w))
    ensures s6 == State(s1.stored, s1.waiters[w := Waiter(subject, Took(s1.stored[subject]), Sub(true, true, 0, []))])
  {
    s2 := Apply(cfg, s1, Subscribe(w));
    s3 := Apply(cfg, s2, Activate(w));
    s4 := Apply(cfg, s3, Bound(w));
    s5 := Apply(cfg, s4, Flush(w));
    s6 := Apply(cfg, s5, Read(w));
  }

  /** A waiter that starts before there is a result waits, and takes the result that is published then. */
  lemma WaitsAndTakes(cfg: StreamConfig, s: State, w: nat, m: Message, routed: bool) returns (s': State)
    requires w in s.waiters && s.waiters[w].pc.Start? && s.waiters[w].sub == Sub(false, false, 0, [])
    requires s.waiters[w].subject !in s.stored
    ensures var steps := [Subscribe(w), Activate(w), Bound(w), Flush(w), Read(w),
                          Publish(s.waiters[w].subject, m, routed)];
            && IsRun(cfg, s, steps) && Enabled(End(cfg, s, steps), Next(w))
            && s' == Apply(cfg, End(cfg, s, steps), Next(w))
    ensures w in s'.waiters && s'.waiters[w].pc == Took(m)
    ensures s'.stored == s.stored[s.waiters[w].subject := m]
  {
    var subject := s.waiters[w].subject;
    var steps := [Subscribe(w), Activate(w), Bound(w), Flush(w), Read(w), Publish(subject, m, routed)];
    var s1 := Apply(cfg, s, steps[0]);
    var s2 := Apply(cfg, s1, steps[1]);
    var s3 := Apply(cfg, s2, steps[2]);
    var s4 := Apply(cfg, s3, steps[3]);
    var s5 := Apply(cfg, s4, steps[4]);
    assert s5.stored == s.stored && s5.waiters[w] == Waiter(subject, Waiting, Sub(true, true, 0, []));
    var s6 := Apply(cfg, s5, steps[5]);
    RunSix(cfg, s, steps, s1, s2, s3, s4, s5, s6);
    assert s6.waiters[w].sub.queue == [] + [m];
    s' := Apply(cfg, s6, Next(w));
  }

  lemma RunSix(cfg: StreamConfig, s: State, steps: seq<Step>, s1: State, s2: State, s3: State, s4: State, s5: State,
               s6: State)
    requires |steps| == 6
    requires Enabled(s, steps[0]) && s1 == Apply(cfg, s, steps[0]) && Enabled(s1, steps[1])
             && s2 == Apply(cfg, s1, steps[1])
    requires Enabled(s2, steps[2]) && s3 == Apply(cfg, s2, steps[2]) && Enabled(s3, steps[3])
             && s4 == Apply(cfg, s3, steps[3])
    requires Enabled(s4, steps[4]) && s5 == Apply(cfg, s4, steps[4]) && Enabled(s5, steps[5])
             && s6 == Apply(cfg, s5, steps[5])
    ensures IsRun(cfg, s, steps) && End(cfg, s, steps) == s6
  {
    assert IsRun(cfg, s6, steps[6..]) && End(cfg, s6, steps[6..]) == s6;
    assert steps[5..][1..] == steps[6..];
    assert IsRun(cfg, s5, steps[5..]) && End(cfg, s5, steps[5..]) == s6;
    assert steps[4..][1..] == steps[5..];
    assert IsRun(cfg, s4, steps[4..]) && End(cfg, s4, steps[4..]) == s6;
    assert steps[3..][1..] == steps[4..];
    assert IsRun(cfg, s3, steps[3..]) && End(cfg, s3, steps[3..]) == s6;
    assert steps[2..][1..] == steps[3..];
    assert IsRun(cfg, s2, steps[2..]) && End(cfg, s2, steps[2..]) == s6;
    assert steps[1..][1..] == steps[2..];
    assert IsRun(cfg, s1, steps[1..]) && End(cfg, s1, steps[1..]) == s6;
  }

  lemma {:induction false} RunJoined(cfg: StreamConfig, s: State, a: seq<Step>, b: seq<Step>)
    requires IsRun(cfg, s, a) && IsRun(cfg, End(cfg, s, a), b)
    ensures IsRun(cfg, s, a + b) && End(cfg, s, a + b) == End(cfg, End(cfg, s, a), b)
    decreases |a|
  {
    if a == [] {
      assert a + b == b;
    } else {
      assert (a + b)[1..] == a[1..] + b;
      RunJoined(cfg, Apply(cfg, s, a[0]), a[1..], b);
    }
  }
}
