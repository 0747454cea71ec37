/**
  The desktop client's signing gate and identity swap. Signers enter and leave the gate of an identity,
  swappers install a new identity or lock the client and then close the identity they displaced. The
  key material of an identity must not be destroyed under a signature.
*/
module SigningGate {
  import opened Wrappers

  datatype Once = Unused | RunningOnce | Finished

  /** A resolved identity: its gate, its closeOnce, and whether its signer is destroyed. */
  datatype Identity = Identity(revoked: bool, active: int, once: Once, destroyed: bool)

  const FRESH := Identity(false, 0, Unused, false)

  /** The stages of close(); only the goroutine that runs the once body passes the middle ones. */
  datatype Stage = AtOnce | Revoking | ClosingProvider | WaitingForSigners | Destroying | AwaitingOnce

  datatype PC = Idle | SigningWith(id: nat) | ClosingOf(id: nat, stage: Stage)

  datatype History = History(installed: set<nat>, displaced: set<nat>, handedOut: set<nat>, closed: set<nat>)

  datatype State = State(unlocked: Option<nat>, ids: map<nat, Identity>, threads: map<nat, PC>, hist: History)

  predicate Init(s: State) {
    && s.unlocked == None && s.ids == map[] && s.hist == History({}, {}, {}, {})
    && forall t <- s.threads :: s.threads[t] == Idle
  }

  datatype Step =
    | Install(t: nat, id: nat)   // setUnlockedIdentity with a newly resolved identity
    | Lock(t: nat)               // lockIdentity
    | HandOut                    // unlockedSDKIdentity
    | Enter(t: nat, id: nat)     // a signature through an identity handed out at any time before
    | Leave(t: nat)
    | Close(t: nat)              // the next stage of a close

  predicate At(s: State, t: nat) { t in s.threads }

  predicate Enabled(s: State, step: Step) {
    match step
    case Install(t, id) => At(s, t) && s.threads[t].Idle? && id !in s.hist.installed
    case Lock(t) => At(s, t) && s.threads[t].Idle?
    case HandOut => true
    case Enter(t, id) => At(s, t) && s.threads[t].Idle? && id in s.hist.handedOut && id in s.ids
    case Leave(t) => At(s, t) && s.threads[t].SigningWith? && s.threads[t].id in s.ids
    case Close(t) => At(s, t) && s.threads[t].ClosingOf? && s.threads[t].id in s.ids && MayClose(s, t)
  }

  /** Waiting for signers and waiting for another goroutine's once body are the two blocking stages. */
  predicate MayClose(s: State, t: nat)
    requires At(s, t) && s.threads[t].ClosingOf? && s.threads[t].id in s.ids
  {
    var i := s.ids[s.threads[t].id];
    && (s.threads[t].stage.WaitingForSigners? ==> i.active == 0)
    && (s.threads[t].stage.AwaitingOnce? ==> i.once.Finished?)
  }

  /** The previous identity is displaced under the lock and closed outside it. */
  function Swap(s: State, t: nat, now: Option<nat>): State
    requires At(s, t)
  {
    match s.unlocked
    case None => s.(unlocked := now)
    case Some(previous) =>
      s.(unlocked := now, threads := s.threads[t := ClosingOf(previous, AtOnce)],
         hist := s.hist.(displaced := s.hist.displaced + {previous}))
  }

  function Update(s: State, id: nat, i: Identity, t: nat, pc: PC): State {
    s.(ids := s.ids[id := i], threads := s.threads[t := pc])
  }

  function Apply(s: State, step: Step): State
    requires Enabled(s, step)
  {
    match step
    case Install(t, id) =>
      Swap(s.(ids := s.ids[id := FRESH], hist := s.hist.(installed := s.hist.installed + {id})), t, Some(id))
    case Lock(t) => Swap(s, t, None)
    case HandOut =>
      if s.unlocked.None? then s else s.(hist := s.hist.(handedOut := s.hist.handedOut + {s.unlocked.value}))
    case Enter(t, id) =>
      if s.ids[id].revoked then s
      else Update(s, id, s.ids[id].(active := s.ids[id].active + 1), t, SigningWith(id))
    case Leave(t) =>
      var id := s.threads[t].id;
      Update(s, id, s.ids[id].(active := s.ids[id].active - 1), t, Idle)
    case Close(t) => CloseStage(s, t, s.threads[t].id, s.threads[t].stage)
  }

  function CloseStage(s: State, t: nat, id: nat, stage: Stage): State
    requires At(s, t) && id in s.ids
  {
    var i := s.ids[id];
    match stage
    case AtOnce =>
      if i.once.Unused? then Update(s, id, i.(once := RunningOnce), t, ClosingOf(id, Revoking))
      else Update(s, id, i, t, ClosingOf(id, AwaitingOnce))
    case Revoking => Update(s, id, i.(revoked := true), t, ClosingOf(id, ClosingProvider))
    case ClosingProvider => Update(s, id, i, t, ClosingOf(id, WaitingForSigners))
    case WaitingForSigners => Update(s, id, i, t, ClosingOf(id, Destroying))
    case Destroying =>
      Update(s, id, i.(destroyed := true, once := Finished), t, Idle).(hist := s.hist.(closed := s.hist.closed + {id}))
    case AwaitingOnce => Update(s, id, i, t, Idle).(hist := s.hist.(closed := s.hist.closed + {id}))
  }

  // ---------- the invariant ----------

  ghost function SignersIn(threads: map<nat, PC>, id: nat): set<nat> {
    set t | t in threads && threads[t] == SigningWith(id)
  }

  ghost function Signers(s: State, id: nat): set<nat> {
    SignersIn(s.threads, id)
  }

  /** What holds of one identity. */
  ghost predicate IdentityOk(s: State, id: nat)
    requires id in s.ids
  {
    var i := s.ids[id];
    && id in s.hist.installed
    && i.active == |Signers(s, id)|
    && (i.destroyed ==> i.revoked && i.active == 0 && i.once.Finished?)
    && (i.revoked ==> !i.once.Unused?)
    && (i.once.Finished? <==> i.destroyed)
    && (id in s.hist.closed ==> i.once.Finished?)
    && (!i.once.Unused? ==> id in s.hist.displaced)
  }

  /** What holds of one goroutine. */
  ghost predicate ThreadOk(s: State, pc: PC) {
    match pc
    case Idle => true
    case SigningWith(id) => id in s.ids
    case ClosingOf(id, stage) =>
      && id in s.ids && id in s.hist.displaced
      && var i := s.ids[id];
      match stage
      case AtOnce => i.once.Unused?
      case Revoking => i.once.RunningOnce?
      case ClosingProvider => i.once.RunningOnce? && i.revoked
      case WaitingForSigners => i.once.RunningOnce? && i.revoked
      case Destroying => i.once.RunningOnce? && i.revoked && i.active == 0
      case AwaitingOnce => false
  }

  predicate Apart(a: PC, b: PC) { a.ClosingOf? && b.ClosingOf? ==> a.id != b.id }

  ghost predicate Inv(s: State) {
    && (s.unlocked.Some? ==> s.unlocked.value in s.ids && s.unlocked.value !in s.hist.displaced)
    && s.hist.closed <= s.hist.displaced <= s.hist.installed
    && (forall id <- s.ids :: IdentityOk(s, id))
    && (forall t <- s.threads :: ThreadOk(s, s.threads[t]))
    && (forall t, u :: t in s.threads && u in s.threads && t != u ==> Apart(s.threads[t], s.threads[u]))
  }

  lemma InitInv(s: State)
    requires Init(s)
    ensures Inv(s)
  {}

  lemma SignersMoved(threads: map<nat, PC>, t: nat, pc: PC, id: nat)
    requires t in threads
    ensures |SignersIn(threads[t := pc], id)| == |SignersIn(threads, id)|
              + (if pc == SigningWith(id) then 1 else 0) - (if threads[t] == SigningWith(id) then 1 else 0)
  {
    var before, after := SignersIn(threads, id), SignersIn(threads[t := pc], id);
    if pc == SigningWith(id) { assert after == before + {t}; } else { assert after == before - {t}; }
  }

  lemma IdentityKept(s: State, step: Step, id: nat)
    requires Inv(s) && Enabled(s, step) && id in Apply(s, step).ids
    ensures IdentityOk(Apply(s, step), id)
  {
    if step.Close? {
      IdentityKeptByClose(s, step, id);
    } else if step.HandOut? {
      assert IdentityOk(s, id) && Signers(Apply(s, step), id) == Signers(s, id);
    } else {
      IdentityKeptByMove(s, step, id);
    }
  }

  lemma IdentityKeptByClose(s: State, step: Step, id: nat)
    requires Inv(s) && Enabled(s, step) && step.Close? && id in Apply(s, step).ids
    ensures IdentityOk(Apply(s, step), id)
  {
    var s' := Apply(s, step);
    assert IdentityOk(s, id) && ThreadOk(s, s.threads[step.t]);
    SignersMoved(s.threads, step.t, s'.threads[step.t], id);
    assert s'.threads == s.threads[step.t := s'.threads[step.t]];
  }

  lemma IdentityKeptByMove(s: State, step: Step, id: nat)
    requires Inv(s) && Enabled(s, step) && !step.Close? && !step.HandOut? && id in Apply(s, step).ids
    ensures IdentityOk(Apply(s, step), id)
  {
    var s' := Apply(s, step);
    if id in s.ids { assert IdentityOk(s, id); }
    assert ThreadOk(s, s.threads[step.t]);
    SignersMoved(s.threads, step.t, s'.threads[step.t], id);
    assert s'.threads == s.threads[step.t := s'.threads[step.t]];
    if id !in s.ids { assert Signers(s, id) == {} by { NoStraySigner(s, id); } }
  }

  lemma NoStraySigner(s: State, id: nat)
    requires Inv(s) && id !in s.ids
    ensures Signers(s, id) == {}
  {
    forall t | t in s.threads ensures s.threads[t] != SigningWith(id) {
      assert ThreadOk(s, s.threads[t]);
    }
  }

  lemma ThreadKept(s: State, step: Step, u: nat)
    requires Inv(s) && Enabled(s, step) && u in Apply(s, step).threads
    ensures ThreadOk(Apply(s, step), Apply(s, step).threads[u])
  {
    assert ThreadOk(s, s.threads[u]);
    if !step.HandOut? {
      assert ThreadOk(s, s.threads[step.t]);
      if u != step.t { assert Apart(s.threads[u], s.threads[step.t]); }
    }
    if s.unlocked.Some? { assert IdentityOk(s, s.unlocked.value); }
    if step.Enter? { assert IdentityOk(s, step.id); }
    if step.Leave? { assert IdentityOk(s, s.threads[step.t].id) && step.t in Signers(s, s.threads[step.t].id); }
  }

  lemma ApartKept(s: State, step: Step, t: nat, u: nat)
    requires Inv(s) && Enabled(s, step) && t in Apply(s, step).threads && u in Apply(s, step).threads && t != u
    ensures Apart(Apply(s, step).threads[t], Apply(s, step).threads[u])
  {
    assert Apart(s.threads[t], s.threads[u]);
    assert ThreadOk(s, s.threads[t]) && ThreadOk(s, s.threads[u]);
  }

  lemma CurrentKept(s: State, step: Step)
    requires Inv(s) && Enabled(s, step)
    ensures var s' := Apply(s, step);
            && (s'.unlocked.Some? ==> s'.unlocked.value in s'.ids && s'.unlocked.value !in s'.hist.displaced)
            && s'.hist.closed <= s'.hist.displaced <= s'.hist.installed
  {
    if s.unlocked.Some? { assert IdentityOk(s, s.unlocked.value); }
    if step.Close? { assert ThreadOk(s, s.threads[step.t]); }
  }

  lemma StepKeepsInv(s: State, step: Step)
    requires Inv(s) && Enabled(s, step)
    ensures Inv(Apply(s, step))
  {
    var s' := Apply(s, step);
    CurrentKept(s, step);
    forall id | id in s'.ids ensures IdentityOk(s', id) { IdentityKept(s, step, id); }
    forall t | t in s'.threads ensures ThreadOk(s', s'.threads[t]) { ThreadKept(s, step, t); }
    forall t, u | t in s'.threads && u in s'.threads && t != u ensures Apart(s'.threads[t], s'.threads[u]) {
      ApartKept(s, step, t, u);
    }
  }

  // ---------- runs ----------

  ghost predicate IsRun(s: State, steps: seq<Step>)
    decreases |steps|
  {
    steps == [] || (Enabled(s, steps[0]) && IsRun(Apply(s, steps[0]), steps[1..]))
  }

  ghost function End(s: State, steps: seq<Step>): State
    requires IsRun(s, steps)
    decreases |steps|
  {
    if steps == [] then s else End(Apply(s, steps[0]), steps[1..])
  }

  ghost predicate Reachable(s: State) {
    exists s0, steps :: Init(s0) && IsRun(s0, steps) && End(s0, steps) == s
  }

  lemma {:induction false} RunKeepsInv(s: State, steps: seq<Step>)
    requires Inv(s) && IsRun(s, steps)
    ensures Inv(End(s, steps))
    decreases |steps|
  {
    if steps != [] {
      StepKeepsInv(s, steps[0]);
      RunKeepsInv(Apply(s, steps[0]), steps[1..]);
    }
  }

  lemma ReachableInv(s: State)
    requires Reachable(s)
    ensures Inv(s)
  {
    var s0, steps :| Init(s0) && IsRun(s0, steps) && End(s0, steps) == s;
    InitInv(s0);
    RunKeepsInv(s0, steps);
  }

  // ---------- what is promised ----------

  /** A destroyed signer is under no signature, and the step that destroys one finds none in progress. */
  lemma DestroyedUnused(s: State, t: nat)
    requires Reachable(s) && t in s.threads && s.threads[t].SigningWith?
    ensures s.threads[t].id in s.ids && !s.ids[s.threads[t].id].destroyed
    ensures forall step :: Enabled(s, step) ==>
              var id := s.threads[t].id; id in Apply(s, step).ids && !Apply(s, step).ids[id].destroyed
  {
    ReachableInv(s);
    var id := s.threads[t].id;
    assert ThreadOk(s, s.threads[t]) && IdentityOk(s, id);
    assert t in Signers(s, id);
    forall step | Enabled(s, step) ensures id in Apply(s, step).ids && !Apply(s, step).ids[id].destroyed {
      if step.Close? { assert ThreadOk(s, s.threads[step.t]); }
      if step.Install? { assert step.id != id; }
    }
  }

  /** An attempt to sign begins a signature if and only if the identity is not revoked, and with the unlocked
      identity it always does. */
  lemma SignatureBegins(s: State, t: nat, id: nat)
    requires Reachable(s) && Enabled(s, Enter(t, id))
    ensures var s' := Apply(s, Enter(t, id));
            && (t in Signers(s', id) <==> !s.ids[id].revoked)
            && Signers(s', id) == Signers(s, id) + (if s.ids[id].revoked then {} else {t})
            && s'.ids[id].active == |Signers(s', id)|
    ensures s.unlocked == Some(id) ==> !s.ids[id].revoked
  {
    ReachableInv(s);
    assert IdentityOk(s, id);
    EntersOnce(s, t, id);
  }

  lemma EntersOnce(s: State, t: nat, id: nat)
    requires Enabled(s, Enter(t, id)) && s.ids[id].active == |Signers(s, id)|
    ensures var s' := Apply(s, Enter(t, id));
            && Signers(s', id) == Signers(s, id) + (if s.ids[id].revoked then {} else {t})
            && s'.ids[id].active == |Signers(s', id)|
  {
    var s' := Apply(s, Enter(t, id));
    assert t !in Signers(s, id);
    assert Signers(s', id) == Signers(s, id) + (if s.ids[id].revoked then {} else {t});
  }

  /** Once a close of an identity has returned, its signer is destroyed and every later attempt to sign
      with it fails, through whatever handle. */
  lemma {:induction false} NoSignatureAfterClose(s: State, steps: seq<Step>, id: nat)
    requires Inv(s) && IsRun(s, steps) && id in s.hist.closed && id in s.ids
    ensures var s' := End(s, steps);
            && id in s'.ids && s'.ids[id].destroyed && Signers(s', id) == {}
            && forall t :: Enabled(s', Enter(t, id)) ==> Apply(s', Enter(t, id)) == s'
    decreases |steps|
  {
    assert IdentityOk(s, id);
    if steps != [] {
      StepKeepsInv(s, steps[0]);
      NoSignatureAfterClose(Apply(s, steps[0]), steps[1..], id);
    }
  }

  /** The current identity is never being closed, and no two goroutines close the same one. */
  lemma OneCloserEach(s: State, t: nat)
    requires Reachable(s) && t in s.threads && s.threads[t].ClosingOf?
    ensures s.unlocked != Some(s.threads[t].id)
    ensures forall u :: u in s.threads && u != t && s.threads[u].ClosingOf? ==> s.threads[u].id != s.threads[t].id
    ensures !s.threads[t].stage.AwaitingOnce?
  {
    ReachableInv(s);
    assert ThreadOk(s, s.threads[t]);
    forall u | u in s.threads && u != t && s.threads[u].ClosingOf? ensures s.threads[u].id != s.threads[t].id {
      assert Apart(s.threads[u], s.threads[t]);
    }
  }

  lemma CurrentUsable(s: State)
    requires Reachable(s) && s.unlocked.Some?
    ensures s.unlocked.value in s.ids && !s.ids[s.unlocked.value].revoked && !s.ids[s.unlocked.value].destroyed
  {
    ReachableInv(s);
    assert IdentityOk(s, s.unlocked.value);
  }

  // ---------- close comes to an end ----------

  function StageRank(stage: Stage): nat {
    match stage
    case AtOnce => 5 case Revoking => 4 case ClosingProvider => 3 case WaitingForSigners => 2
    case Destroying => 1 case AwaitingOnce => 1
  }

  /** A close that cannot go on waits for a signature, and that signature can end. */
  lemma CloseNotStuck(s: State, t: nat)
    requires Reachable(s) && t in s.threads && s.threads[t].ClosingOf?
    ensures Enabled(s, Close(t)) || exists u :: u in Signers(s, s.threads[t].id) && Enabled(s, Leave(u))
    ensures Enabled(s, Close(t)) ==>
              var pc := Apply(s, Close(t)).threads[t];
              pc.Idle? || (pc.ClosingOf? && StageRank(pc.stage) < StageRank(s.threads[t].stage))
  {
    ReachableInv(s);
    var id := s.threads[t].id;
    assert ThreadOk(s, s.threads[t]) && IdentityOk(s, id);
    if !Enabled(s, Close(t)) {
      var u :| u in Signers(s, id);
      assert Enabled(s, Leave(u));
    }
  }

  /** Once an identity is revoked no step makes its signatures more: they only end, so the wait does. */
  lemma SignaturesOnlyEnd(s: State, step: Step, id: nat)
    requires Reachable(s) && Enabled(s, step) && id in s.ids && s.ids[id].revoked
    ensures var s' := Apply(s, step);
            && id in s'.ids && s'.ids[id].revoked && s'.ids[id].active <= s.ids[id].active
            && (step.Leave? && s.threads[step.t].id == id ==> s'.ids[id].active < s.ids[id].active)
  {
    ReachableInv(s);
    assert IdentityOk(s, id);
  }

  // ---------- swapping ----------

  ghost predicate BeingClosed(s: State, id: nat) {
    exists t :: t in s.threads && s.threads[t].ClosingOf? && s.threads[t].id == id
  }

  /** Every identity ever installed is the current one, or is being closed, or is closed. */
  ghost predicate Accounted(s: State) {
    forall id <- s.hist.installed ::
      id in s.ids && (s.unlocked == Some(id) || BeingClosed(s, id) || id in s.hist.closed)
  }

  lemma StepAccounts(s: State, step: Step)
    requires Inv(s) && Accounted(s) && Enabled(s, step)
    ensures Accounted(Apply(s, step))
  {
    var s' := Apply(s, step);
    forall id | id in s'.hist.installed
      ensures id in s'.ids && (s'.unlocked == Some(id) || BeingClosed(s', id) || id in s'.hist.closed)
    {
      if id in s.hist.installed { StaysAccounted(s, step, id); }
    }
  }

  lemma StaysAccounted(s: State, step: Step, id: nat)
    requires Inv(s) && Accounted(s) && Enabled(s, step) && id in s.hist.installed
    ensures var s' := Apply(s, step);
            id in s'.ids && (s'.unlocked == Some(id) || BeingClosed(s', id) || id in s'.hist.closed)
  {
    var s' := Apply(s, step);
    if BeingClosed(s, id) {
      var t :| t in s.threads && s.threads[t].ClosingOf? && s.threads[t].id == id;
      ClosingGoesOn(s, step, t);
    } else if s.unlocked == Some(id) && s'.unlocked != Some(id) {
      assert s'.threads[step.t] == ClosingOf(id, AtOnce);
    }
  }

  lemma ClosingGoesOn(s: State, step: Step, t: nat)
    requires Enabled(s, step) && t in s.threads && s.threads[t].ClosingOf?
    ensures var s' := Apply(s, step);
            || s.threads[t].id in s'.hist.closed
            || (t in s'.threads && s'.threads[t].ClosingOf? && s'.threads[t].id == s.threads[t].id)
  {
  }

  lemma {:induction false} RunAccounts(s: State, steps: seq<Step>)
    requires Inv(s) && Accounted(s) && IsRun(s, steps)
    ensures Accounted(End(s, steps))
    decreases |steps|
  {
    if steps != [] {
      StepKeepsInv(s, steps[0]);
      StepAccounts(s, steps[0]);
      RunAccounts(Apply(s, steps[0]), steps[1..]);
    }
  }

  /** No displaced identity is forgotten: in every reachable state it is being closed or its close returned. */
  lemma DisplacedClosed(s: State, id: nat)
    requires Reachable(s) && id in s.hist.displaced
    ensures BeingClosed(s, id) || id in s.hist.closed
  {
    var s0, steps :| Init(s0) && IsRun(s0, steps) && End(s0, steps) == s;
    InitInv(s0);
    RunAccounts(s0, steps);
    ReachableInv(s);
  }

  /** After a lock there is no current identity until one is installed, and nothing is handed out. */
  lemma {:induction false} LockedUntilInstall(s: State, t: nat, steps: seq<Step>)
    requires Enabled(s, Lock(t)) && IsRun(Apply(s, Lock(t)), steps)
    requires forall i | 0 <= i < |steps| :: !steps[i].Install?
    ensures End(Apply(s, Lock(t)), steps).unlocked == None
    ensures End(Apply(s, Lock(t)), steps).hist.handedOut == s.hist.handedOut
  {
    StaysLocked(Apply(s, Lock(t)), steps);
  }

  lemma {:induction false} StaysLocked(s: State, steps: seq<Step>)
    requires s.unlocked == None && IsRun(s, steps) && forall i | 0 <= i < |steps| :: !steps[i].Install?
    ensures End(s, steps).unlocked == None && End(s, steps).hist.handedOut == s.hist.handedOut
    decreases |steps|
  {
    if steps != [] {
      StaysLocked(Apply(s, steps[0]), steps[1..]);
    }
  }

  /** An installed identity is the current one; handed out, another goroutine signs with it. */
  lemma InstalledSigns(s: State, t: nat, id: nat, u: nat) returns (s': State)
    requires Enabled(s, Install(t, id)) && u in s.threads && u != t && s.threads[u].Idle?
    ensures var s1 := Apply(s, Install(t, id));
            && s1.unlocked == Some(id)
            && (s.unlocked.Some? ==> s1.threads[t] == ClosingOf(s.unlocked.value, AtOnce))
            && Enabled(Apply(s1, HandOut), Enter(u, id)) && s' == Apply(Apply(s1, HandOut), Enter(u, id))
    ensures s'.threads[u] == SigningWith(id) && id in s'.ids && s'.ids[id].active == 1
  {
    s' := Apply(Apply(Apply(s, Install(t, id)), HandOut), Enter(u, id));
  }
}
