/**
  The lifecycle of the TLS policy manager: periodic reload, explicit reload, error callbacks and
  shutdown, as atomic steps of one worker, any number of error callbacks and any number of clients.

  A section guarded by `lifecycleMu` holds no blocking operation, so each is one step here.
  `reloadMu` is held across steps and is modelled as an owner.
*/
module TlsManager {
  import opened Wrappers

  type Snapshot = int

  datatype Actor = Worker | Callback(id: nat) | Client(id: nat)

  /** What a finished Reload reports to its caller. */
  datatype Outcome = Published | Failed | ManagerClosed

  datatype ReloadPC =
    | Acquire
    | FirstCheck
    | Load
    | SecondCheck(next: Snapshot)
    | Publish(next: Snapshot)
    | Release(outcome: Outcome)

  datatype ClosePC =
    | Enter
    | Cancel
    | TakeReloadMu
    | DropReloadMu
    | WaitWorker
    | Signal
    | WaitDone

  /** Where a goroutine is. A goroutine that is absent from the state runs no manager code. */
  datatype PC =
    | Reloading(r: ReloadPC)
    | Closing(c: ClosePC)
    // the periodic worker outside Reload
    | Select
    | Dispatch
    | AwaitStarted(callback: nat)
    // a callback goroutine outside Reload and Close
    | Spawned
    | Signalled
    | Running
    | Leaving
  {
    predicate HoldsReloadMu() {
      (Reloading? && !r.Acquire?) || (Closing? && c.DropReloadMu?)
    }

    /** Inside the one Close that found the manager open. */
    predicate FirstCloser() {
      Closing? && !c.Enter? && !c.WaitDone?
    }

    /** The first Close has held reloadMu after setting closed. */
    predicate PastBarrier() {
      Closing? && (c.DropReloadMu? || c.WaitWorker? || c.Signal?)
    }

    predicate MayStillPublish() {
      Reloading? && (r.Load? || r.SecondCheck? || r.Publish?)
    }
  }

  /** The fields of Start and Close. `closed` is kept as the goroutine whose Close set it. */
  datatype Lifecycle = Lifecycle(
    closer: Option<Actor>,
    started: bool,              // the cancel function is set
    ctxDone: bool,
    waitGroup: int,
    doneClosed: bool,
    closeReturned: bool)        // some Close has returned

  /** The fields of the error callbacks. `callbackActive` is kept as the callback that was accepted. */
  datatype Callbacks = Callbacks(
    hasOnError: bool,
    accepted: Option<nat>,
    next: nat,
    signalled: set<nat>,        // callbacks whose `started` channel is closed
    invoked: set<nat>)          // callbacks whose onError has been entered

  datatype State = State(
    life: Lifecycle,
    calls: Callbacks,
    reloadMu: Option<Actor>,
    snapshot: Snapshot,
    pcs: map<Actor, PC>)
  {
    predicate Closed() { life.closer.Some? }
    predicate At(a: Actor, pc: PC) { a in pcs && pcs[a] == pc }
  }

  predicate Init(s: State) {
    && s.life == Lifecycle(None, false, false, 0, false, false)
    && s.calls == Callbacks(s.calls.hasOnError, None, 0, {}, {})
    && s.reloadMu == None && s.pcs == map[]
  }

  /** What can happen next: a new call, a timer tick, the parent context, user code returning, or
      the manager's own next step of some goroutine. */
  datatype Step =
    | CallStart
    | CallReload(caller: Actor)
    | CallClose(caller: Actor)
    | Tick
    | ParentCancel
    | OnErrorReturns(callback: nat)
    | Run(actor: Actor, loaded: Option<Snapshot>)

  predicate MayCall(s: State, a: Actor) {
    match a
    case Worker => false
    case Callback(_) => s.At(a, Running)
    case Client(_) => a !in s.pcs
  }

  predicate Enabled(s: State, step: Step) {
    match step
    case CallStart => true
    case CallReload(a) => MayCall(s, a)
    case CallClose(a) => MayCall(s, a)
    case Tick => s.At(Worker, Select)
    case ParentCancel => s.life.started
    case OnErrorReturns(k) => s.At(Callback(k), Running)
    case Run(a, _) => CanRun(s, a)
  }

  predicate CanRun(s: State, a: Actor) {
    && a in s.pcs
    && match s.pcs[a] {
         case Reloading(r) => r.Acquire? ==> s.reloadMu == None
         case Closing(c) =>
           && (c.TakeReloadMu? ==> s.reloadMu == None)
           && (c.WaitWorker? ==> s.life.waitGroup == 0)
           && (c.WaitDone? ==> s.life.doneClosed)
         case Select => s.life.ctxDone
         case AwaitStarted(k) => k in s.calls.signalled
         case Running => false
         case _ => true
       }
  }

  /** The Reload or Close call of `a` returns to the code that made it. */
  function Return(pcs: map<Actor, PC>, a: Actor, workerNext: PC): map<Actor, PC> {
    match a
    case Worker => pcs[a := workerNext]
    case Callback(_) => pcs[a := Running]
    case Client(_) => pcs - {a}
  }

  function Move(s: State, a: Actor, pc: PC): State {
    s.(pcs := s.pcs[a := pc])
  }

  function Apply(s: State, step: Step): State
    requires Enabled(s, step)
  {
    match step
    case CallStart =>
      if s.Closed() || s.life.started then s
      else s.(life := s.life.(started := true, waitGroup := s.life.waitGroup + 1),
              pcs := s.pcs[Worker := Select])
    case CallReload(a) => Move(s, a, Reloading(Acquire))
    case CallClose(a) => Move(s, a, Closing(Enter))
    case Tick => Move(s, Worker, Reloading(Acquire))
    case ParentCancel => s.(life := s.life.(ctxDone := true))
    case OnErrorReturns(k) => Move(s, Callback(k), Leaving)
    case Run(a, loaded) => RunActor(s, a, loaded)
  }

  function RunActor(s: State, a: Actor, loaded: Option<Snapshot>): State
    requires CanRun(s, a)
  {
    match s.pcs[a]
    case Reloading(r) => RunReload(s, a, r, loaded)
    case Closing(c) => RunClose(s, a, c)
    case Select => s.(life := s.life.(waitGroup := s.life.waitGroup - 1), pcs := s.pcs - {a})
    case Dispatch => RunDispatch(s, a)
    case AwaitStarted(_) => Move(s, a, Select)
    case Spawned =>
      if !a.Callback? then s
      else s.(calls := s.calls.(signalled := s.calls.signalled + {a.id}), pcs := s.pcs[a := Signalled])
    case Signalled =>
      if !a.Callback? then s
      else s.(calls := s.calls.(invoked := s.calls.invoked + {a.id}), pcs := s.pcs[a := Running])
    case Leaving => s.(calls := s.calls.(accepted := None), pcs := s.pcs - {a})
  }

  function RunDispatch(s: State, a: Actor): State {
    var k := s.calls.next;
    if !s.calls.hasOnError || s.Closed() || s.calls.accepted.Some? then Move(s, a, Select)
    else s.(calls := s.calls.(accepted := Some(k), next := k + 1),
            pcs := s.pcs[a := AwaitStarted(k)][Callback(k) := Spawned])
  }

  function RunReload(s: State, a: Actor, r: ReloadPC, loaded: Option<Snapshot>): State {
    match r
    case Acquire => s.(reloadMu := Some(a), pcs := s.pcs[a := Reloading(FirstCheck)])
    case FirstCheck => Move(s, a, Reloading(if s.Closed() then Release(ManagerClosed) else Load))
    case Load => Move(s, a, Reloading(if loaded.Some? then SecondCheck(loaded.value) else Release(Failed)))
    case SecondCheck(next) => Move(s, a, Reloading(if s.Closed() then Release(ManagerClosed) else Publish(next)))
    case Publish(next) => s.(snapshot := next, pcs := s.pcs[a := Reloading(Release(Published))])
    case Release(outcome) =>
      s.(reloadMu := None, pcs := Return(s.pcs, a, if outcome.Failed? then Dispatch else Select))
  }

  function RunClose(s: State, a: Actor, c: ClosePC): State {
    match c
    case Enter =>
      if s.Closed() then Move(s, a, Closing(WaitDone))
      else s.(life := s.life.(closer := Some(a)), pcs := s.pcs[a := Closing(Cancel)])
    case Cancel =>
      s.(life := s.life.(ctxDone := s.life.ctxDone || s.life.started), pcs := s.pcs[a := Closing(TakeReloadMu)])
    case TakeReloadMu => s.(reloadMu := Some(a), pcs := s.pcs[a := Closing(DropReloadMu)])
    case DropReloadMu => s.(reloadMu := None, pcs := s.pcs[a := Closing(WaitWorker)])
    case WaitWorker => Move(s, a, Closing(Signal))
    case Signal =>
      s.(life := s.life.(doneClosed := true, closeReturned := true), pcs := Return(s.pcs, a, Select))
    case WaitDone => s.(life := s.life.(closeReturned := true), pcs := Return(s.pcs, a, Select))
  }

  // ---------- the invariant ----------

  /** The first Close has held reloadMu after setting closed, so no later check can find it open. */
  predicate BarrierPassed(s: State) {
    s.life.doneClosed || (s.life.closer.Some? && s.life.closer.value in s.pcs
                          && s.pcs[s.life.closer.value].PastBarrier())
  }

  /** What holds of one goroutine's part in the locking and shutdown protocol. */
  ghost predicate Locking(s: State, a: Actor)
    requires a in s.pcs
  {
    var pc := s.pcs[a];
    && (pc.HoldsReloadMu() ==> s.reloadMu == Some(a))
    && (pc.FirstCloser() ==> s.life.closer == Some(a) && !s.life.doneClosed)
    && (pc.FirstCloser() && !pc.c.Cancel? && s.life.started ==> s.life.ctxDone)
    && (pc == Closing(WaitDone) ==> s.Closed())
    && (pc.MayStillPublish() ==> !BarrierPassed(s))
    && (pc == Closing(Signal) ==> s.life.waitGroup == 0)
  }

  /** What a goroutine is allowed to run, and how a callback relates to the worker that spawned it. */
  ghost predicate Role(s: State, a: Actor)
    requires a in s.pcs
  {
    var pc := s.pcs[a];
    match a
    case Worker =>
      && (pc.Reloading? || pc.Select? || pc.Dispatch? || pc.AwaitStarted?)
      && s.life.started
      && (pc.AwaitStarted? ==> pc.callback in s.calls.signalled || s.At(Callback(pc.callback), Spawned))
    case Callback(k) =>
      && !pc.Select? && !pc.Dispatch? && !pc.AwaitStarted?
      && s.calls.accepted == Some(k) && k < s.calls.next
      && (k in s.calls.signalled <==> !pc.Spawned?)
      && (k in s.calls.invoked <==> !pc.Spawned? && !pc.Signalled?)
      && (pc.Spawned? ==> s.At(Worker, AwaitStarted(k)))
    case Client(_) => pc.Reloading? || pc.Closing?
  }

  ghost predicate Shared(s: State) {
    && (s.life.closeReturned ==> s.life.doneClosed)
    && (s.life.doneClosed ==> s.Closed() && s.life.waitGroup == 0)
    && (s.reloadMu.Some? ==> s.reloadMu.value in s.pcs && s.pcs[s.reloadMu.value].HoldsReloadMu())
    && (s.Closed() && !s.life.doneClosed ==> s.life.closer.value in s.pcs && s.pcs[s.life.closer.value].FirstCloser())
    && (s.calls.accepted.Some? ==> Callback(s.calls.accepted.value) in s.pcs)
    && s.life.waitGroup == (if Worker in s.pcs then 1 else 0)
    && (forall k <- s.calls.signalled :: k < s.calls.next)
    && (forall k <- s.calls.invoked :: k in s.calls.signalled)
  }

  ghost predicate Roles(s: State) { forall a <- s.pcs :: Role(s, a) }

  ghost predicate Locks(s: State) { forall a <- s.pcs :: Locking(s, a) }

  ghost predicate Inv(s: State) { Shared(s) && Roles(s) && Locks(s) }

  lemma InitInv(s: State)
    requires Init(s)
    ensures Inv(s)
  {}

  // One lemma for each part of the invariant and each kind of step. A call that returns is a kind
  // of its own.

  lemma CallKeepsShared(s: State, step: Step)
    requires Inv(s) && Enabled(s, step) && !step.Run?
    ensures Shared(Apply(s, step))
  {}

  lemma ReloadKeepsShared(s: State, a: Actor, r: ReloadPC, loaded: Option<Snapshot>)
    requires Inv(s) && s.At(a, Reloading(r)) && CanRun(s, a) && !r.Release?
    ensures Shared(RunReload(s, a, r, loaded))
  {}

  lemma CloseKeepsShared(s: State, a: Actor, c: ClosePC)
    requires Inv(s) && s.At(a, Closing(c)) && CanRun(s, a) && !c.Signal? && !c.WaitDone?
    ensures Shared(RunClose(s, a, c))
  {}

  lemma ReturnKeepsShared(s: State, a: Actor, loaded: Option<Snapshot>)
    requires Inv(s) && CanRun(s, a) && IsReturning(s.pcs[a])
    ensures Shared(RunActor(s, a, loaded))
  {}

  lemma OtherKeepsShared(s: State, a: Actor, loaded: Option<Snapshot>)
    requires Inv(s) && CanRun(s, a) && !s.pcs[a].Reloading? && !s.pcs[a].Closing?
    ensures Shared(RunActor(s, a, loaded))
  {}

  lemma CallKeepsRoles(s: State, step: Step)
    requires Inv(s) && Enabled(s, step) && !step.Run?
    ensures Roles(Apply(s, step))
  {}

  lemma ReloadKeepsRoles(s: State, a: Actor, r: ReloadPC, loaded: Option<Snapshot>)
    requires Inv(s) && s.At(a, Reloading(r)) && CanRun(s, a) && !r.Release?
    ensures Roles(RunReload(s, a, r, loaded))
  {}

  lemma CloseKeepsRoles(s: State, a: Actor, c: ClosePC)
    requires Inv(s) && s.At(a, Closing(c)) && CanRun(s, a) && !c.Signal? && !c.WaitDone?
    ensures Roles(RunClose(s, a, c))
  {}

  lemma ReturnKeepsRoles(s: State, a: Actor, loaded: Option<Snapshot>)
    requires Inv(s) && CanRun(s, a) && IsReturning(s.pcs[a])
    ensures Roles(RunActor(s, a, loaded))
  {}

  lemma OtherKeepsRoles(s: State, a: Actor, loaded: Option<Snapshot>)
    requires Inv(s) && CanRun(s, a) && !s.pcs[a].Reloading? && !s.pcs[a].Closing?
    ensures Roles(RunActor(s, a, loaded))
  {}

  lemma CallKeepsLocks(s: State, step: Step)
    requires Inv(s) && Enabled(s, step) && !step.Run?
    ensures Locks(Apply(s, step))
  {}

  lemma ReloadKeepsLocks(s: State, a: Actor, r: ReloadPC, loaded: Option<Snapshot>)
    requires Inv(s) && s.At(a, Reloading(r)) && CanRun(s, a) && !r.Release?
    ensures Locks(RunReload(s, a, r, loaded))
  {}

  lemma CloseKeepsLocks(s: State, a: Actor, c: ClosePC)
    requires Inv(s) && s.At(a, Closing(c)) && CanRun(s, a) && !c.Signal? && !c.WaitDone?
    ensures Locks(RunClose(s, a, c))
  {}

  lemma ReturnKeepsLocks(s: State, a: Actor, loaded: Option<Snapshot>)
    requires Inv(s) && CanRun(s, a) && IsReturning(s.pcs[a])
    ensures Locks(RunActor(s, a, loaded))
  {}

  lemma OtherKeepsLocks(s: State, a: Actor, loaded: Option<Snapshot>)
    requires Inv(s) && CanRun(s, a) && !s.pcs[a].Reloading? && !s.pcs[a].Closing?
    ensures Locks(RunActor(s, a, loaded))
  {}

  predicate IsReturning(pc: PC) {
    (pc.Reloading? && pc.r.Release?) || (pc.Closing? && (pc.c.Signal? || pc.c.WaitDone?))
  }

  lemma StepKeepsInv(s: State, step: Step)
    requires Inv(s) && Enabled(s, step)
    ensures Inv(Apply(s, step))
  {
    if !step.Run? {
      CallKeepsShared(s, step); CallKeepsRoles(s, step); CallKeepsLocks(s, step);
    } else {
      RunKeepsInv(s, step.actor, step.loaded);
    }
  }

  lemma RunKeepsInv(s: State, a: Actor, loaded: Option<Snapshot>)
    requires Inv(s) && CanRun(s, a)
    ensures Inv(RunActor(s, a, loaded))
  {
    var pc := s.pcs[a];
    if IsReturning(pc) {
      ReturnKeepsShared(s, a, loaded); ReturnKeepsRoles(s, a, loaded); ReturnKeepsLocks(s, a, loaded);
    } else if pc.Reloading? {
      ReloadKeepsShared(s, a, pc.r, loaded); ReloadKeepsRoles(s, a, pc.r, loaded); ReloadKeepsLocks(s, a, pc.r, loaded);
    } else if pc.Closing? {
      CloseKeepsShared(s, a, pc.c); CloseKeepsRoles(s, a, pc.c); CloseKeepsLocks(s, a, pc.c);
    } else {
      OtherKeepsShared(s, a, loaded); OtherKeepsRoles(s, a, loaded); OtherKeepsLocks(s, a, loaded);
    }
  }

  // ---------- runs ----------

  ghost predicate IsRun(s: State, steps: seq<Step>)
    decreases |steps|
  {
    steps == [] || (Enabled(s, steps[0]) && IsRun(Apply(s, steps[0]), steps[1..]))
  }

  ghost function End(s: State, steps: seq<Step>): State
    requires IsRun(s, steps)
    decreases |steps|
  {
    if steps == [] then s else End(Apply(s, steps[0]), steps[1..])
  }

  ghost predicate Reachable(s: State) {
    exists s0, steps :: Init(s0) && IsRun(s0, steps) && End(s0, steps) == s
  }

  lemma {:induction false} RunKeeps(s: State, steps: seq<Step>)
    requires Inv(s) && IsRun(s, steps)
    ensures Inv(End(s, steps))
    decreases |steps|
  {
    if steps != [] {
      StepKeepsInv(s, steps[0]);
      RunKeeps(Apply(s, steps[0]), steps[1..]);
    }
  }

  lemma ReachableInv(s: State)
    requires Reachable(s)
    ensures Inv(s)
  {
    var s0, steps :| Init(s0) && IsRun(s0, steps) && End(s0, steps) == s;
    RunKeeps(s0, steps);
  }

  // ---------- safety ----------

  /** At most one error callback is ever between its acceptance and the end of its goroutine. */
  lemma OneCallback(s: State, j: nat, k: nat)
    requires Reachable(s) && Callback(j) in s.pcs && Callback(k) in s.pcs
    ensures j == k
  {
    ReachableInv(s);
    assert Role(s, Callback(j)) && Role(s, Callback(k));
  }

  ghost predicate AtPublish(s: State, a: Actor) {
    a in s.pcs && s.pcs[a].Reloading? && s.pcs[a].r.Publish?
  }

  /** What one step of `a` may do once closed is set: it registers no worker and accepts no callback,
      and it publishes only if `a` had already passed its second check. */
  ghost predicate ClosedFrame(s: State, a: Actor, s': State) {
    && s'.life.closer == s.life.closer
    && s'.life.waitGroup <= s.life.waitGroup
    && s'.calls.next == s.calls.next
    && (s'.snapshot != s.snapshot ==> AtPublish(s, a) && s'.snapshot == s.pcs[a].r.next)
    && (forall b :: AtPublish(s', b) ==> AtPublish(s, b) && s'.pcs[b] == s.pcs[b])
  }

  /** What it may do to callbacks: signal one that was spawned, enter onError of one that signalled. */
  ghost predicate CallbackFrame(s: State, s': State) {
    && (forall k :: k in s'.calls.signalled && k !in s.calls.signalled ==> s.At(Callback(k), Spawned))
    && s.calls.signalled <= s'.calls.signalled
    && (forall k :: k in s'.calls.invoked && k !in s.calls.invoked ==> s.At(Callback(k), Signalled))
    && (forall k :: s'.At(Callback(k), Signalled) ==> s.At(Callback(k), Signalled) || s.At(Callback(k), Spawned))
    && (s.life.doneClosed ==> s'.life.doneClosed)
  }

  lemma CallFrame(s: State, step: Step)
    requires Enabled(s, step) && s.Closed() && !step.Run?
    ensures ClosedFrame(s, Worker, Apply(s, step)) && CallbackFrame(s, Apply(s, step))
  {}

  lemma ReloadFrame(s: State, a: Actor, r: ReloadPC, loaded: Option<Snapshot>)
    requires s.Closed() && s.At(a, Reloading(r))
    ensures ClosedFrame(s, a, RunReload(s, a, r, loaded))
    ensures CallbackFrame(s, RunReload(s, a, r, loaded))
  {}

  lemma CloseFrame(s: State, a: Actor, c: ClosePC)
    requires s.Closed() && s.At(a, Closing(c))
    ensures ClosedFrame(s, a, RunClose(s, a, c)) && CallbackFrame(s, RunClose(s, a, c))
  {}

  lemma OtherFrame(s: State, a: Actor, loaded: Option<Snapshot>)
    requires s.Closed() && CanRun(s, a) && !s.pcs[a].Reloading? && !s.pcs[a].Closing?
    ensures ClosedFrame(s, a, RunActor(s, a, loaded)) && CallbackFrame(s, RunActor(s, a, loaded))
  {}

  lemma ClosedStep(s: State, step: Step)
    requires Enabled(s, step) && s.Closed()
    ensures ClosedFrame(s, if step.Run? then step.actor else Worker, Apply(s, step))
    ensures CallbackFrame(s, Apply(s, step))
  {
    if !step.Run? {
      CallFrame(s, step);
    } else {
      var a := step.actor;
      match s.pcs[a]
      case Reloading(r) => ReloadFrame(s, a, r, step.loaded);
      case Closing(c) => CloseFrame(s, a, c);
      case _ => OtherFrame(s, a, step.loaded);
    }
  }

  lemma {:induction false} NoPublishAfter(s: State, steps: seq<Step>)
    requires Inv(s) && s.Closed() && IsRun(s, steps)
    requires forall a :: !AtPublish(s, a)
    ensures End(s, steps).snapshot == s.snapshot
    ensures End(s, steps).calls.next == s.calls.next
    decreases |steps|
  {
    if steps != [] {
      ClosedStep(s, steps[0]);
      StepKeepsInv(s, steps[0]);
      NoPublishAfter(Apply(s, steps[0]), steps[1..]);
    }
  }

  /** After closed is set the snapshot can still change exactly when some Reload is at its publish
      with a different snapshot, which the comment in Close overlooks. */
  lemma PublishWhileClosing(s: State)
    requires Reachable(s) && s.Closed()
    ensures (exists steps :: IsRun(s, steps) && End(s, steps).snapshot != s.snapshot)
       <==> (exists a :: AtPublish(s, a) && s.pcs[a].r.next != s.snapshot)
  {
    ReachableInv(s);
    if a :| AtPublish(s, a) && s.pcs[a].r.next != s.snapshot {
      var steps := [Run(a, None)];
      assert steps[1..] == [];
      assert IsRun(Apply(s, steps[0]), steps[1..]);
      assert End(s, steps) == Apply(s, steps[0]);
    }
    if steps :| IsRun(s, steps) && End(s, steps).snapshot != s.snapshot {
      PublisherFound(s, steps);
    }
  }

  lemma {:induction false} PublisherFound(s: State, steps: seq<Step>)
    requires Inv(s) && s.Closed() && IsRun(s, steps) && End(s, steps).snapshot != s.snapshot
    ensures exists a :: AtPublish(s, a) && s.pcs[a].r.next != s.snapshot
    decreases |steps|
  {
    var step := steps[0];
    var s' := Apply(s, step);
    ClosedStep(s, step);
    if s'.snapshot != s.snapshot {
      assert AtPublish(s, step.actor);
    } else {
      StepKeepsInv(s, step);
      PublisherFound(s', steps[1..]);
      var a :| AtPublish(s', a) && s'.pcs[a].r.next != s.snapshot;
      assert AtPublish(s, a);
    }
  }

  lemma {:induction false} NoSignalAfter(s: State, steps: seq<Step>)
    requires Inv(s) && s.life.doneClosed && IsRun(s, steps)
    ensures End(s, steps).calls.signalled == s.calls.signalled
    ensures forall k :: k in End(s, steps).calls.invoked && k !in s.calls.invoked ==> s.At(Callback(k), Signalled)
    decreases |steps|
  {
    if steps != [] {
      ClosedStep(s, steps[0]);
      forall k: nat ensures !s.At(Callback(k), Spawned) {
        if Callback(k) in s.pcs { assert Role(s, Callback(k)); }
      }
      StepKeepsInv(s, steps[0]);
      NoSignalAfter(Apply(s, steps[0]), steps[1..]);
    }
  }

  /** Once any Close has returned, in every continuation the published snapshot stays what it was,
      no callback is accepted and none signals its start. */
  lemma QuietAfterClose(s: State, steps: seq<Step>)
    requires Reachable(s) && s.life.closeReturned && IsRun(s, steps)
    ensures End(s, steps).snapshot == s.snapshot
    ensures End(s, steps).calls.next == s.calls.next
    ensures End(s, steps).calls.signalled == s.calls.signalled
  {
    ReachableInv(s);
    forall a | a in s.pcs ensures !AtPublish(s, a) {
      assert Locking(s, a);
    }
    NoPublishAfter(s, steps);
    NoSignalAfter(s, steps);
  }

  ghost predicate OnErrorMayStillBegin(s: State) {
    exists steps :: IsRun(s, steps) && !(End(s, steps).calls.invoked <= s.calls.invoked)
  }

  /** The start signal precedes the call of onError, so onError itself may begin after Close has
      returned: exactly when the accepted callback is between the two. */
  lemma LateOnErrorExactly(s: State)
    requires Reachable(s) && s.life.closeReturned
    ensures OnErrorMayStillBegin(s) <==> exists k :: s.At(Callback(k), Signalled)
  {
    ReachableInv(s);
    if k :| s.At(Callback(k), Signalled) {
      var steps := [Run(Callback(k), None)];
      assert steps[1..] == [];
      assert IsRun(Apply(s, steps[0]), steps[1..]);
      assert Role(s, Callback(k));
      assert k in End(s, steps).calls.invoked && k !in s.calls.invoked;
    }
    if steps :| IsRun(s, steps) && !(End(s, steps).calls.invoked <= s.calls.invoked) {
      NoSignalAfter(s, steps);
    }
  }

  // ---------- progress ----------

  /** While any Reload or Close is in progress, some goroutine of the manager can take its own next
      step, whatever the callers and the callback's own code do. */
  lemma NotStuck(s: State, a: Actor)
    requires Inv(s) && a in s.pcs && (s.pcs[a].Reloading? || s.pcs[a].Closing?)
    ensures exists b :: CanRun(s, b)
  {
    if s.reloadMu.Some? {
      assert CanRun(s, s.reloadMu.value);
    } else if !CanRun(s, a) {
      var first := if s.At(a, Closing(WaitDone)) then s.life.closer.value else a;
      assert Locking(s, a) && Locking(s, first);
      if !CanRun(s, first) {
        WorkerNotStuck(s, first);
      }
    }
  }

  lemma WorkerNotStuck(s: State, first: Actor)
    requires Inv(s) && s.reloadMu == None && s.At(first, Closing(WaitWorker)) && s.life.waitGroup != 0
    ensures exists b :: CanRun(s, b)
  {
    assert Role(s, Worker) && Locking(s, first);
    var pc := s.pcs[Worker];
    if pc.AwaitStarted? && pc.callback !in s.calls.signalled {
      assert CanRun(s, Callback(pc.callback));
    } else {
      assert CanRun(s, Worker);
    }
  }

  /** How many own steps a goroutine can still take before it needs something from outside. */
  function Rank(pc: PC): nat {
    match pc
    case Reloading(r) => (match r
      case Acquire => 11 case FirstCheck => 10 case Load => 9
      case SecondCheck(_) => 8 case Publish(_) => 7 case Release(_) => 6)
    case Closing(c) => (match c
      case Enter => 7 case Cancel => 6 case TakeReloadMu => 5 case DropReloadMu => 4
      case WaitWorker => 3 case Signal => 2 case WaitDone => 2)
    case Dispatch => 5
    case AwaitStarted(_) => 2
    case Select => 1
    case Spawned => 2
    case Signalled => 1
    case Running => 0
    case Leaving => 1
  }

  ghost function Total(pcs: map<Actor, PC>): nat
    decreases |pcs|
  {
    if pcs == map[] then 0 else var a :| a in pcs; Rank(pcs[a]) + Total(pcs - {a})
  }

  lemma {:induction false} TotalSplit(pcs: map<Actor, PC>, a: Actor)
    requires a in pcs
    ensures Total(pcs) == Rank(pcs[a]) + Total(pcs - {a})
    decreases |pcs|
  {
    var b :| b in pcs && Total(pcs) == Rank(pcs[b]) + Total(pcs - {b});
    if b != a {
      TotalSplit(pcs - {b}, a);
      TotalSplit(pcs - {a}, b);
      assert pcs - {b} - {a} == pcs - {a} - {b};
    }
  }

  lemma TotalMove(pcs: map<Actor, PC>, a: Actor, pc: PC)
    ensures Total(pcs[a := pc]) == Rank(pc) + (if a in pcs then Total(pcs) - Rank(pcs[a]) else Total(pcs))
  {
    TotalSplit(pcs[a := pc], a);
    assert pcs[a := pc] - {a} == pcs - {a};
    if a in pcs { TotalSplit(pcs, a); } else { assert pcs - {a} == pcs; }
  }

  /** A goroutine's own step lowers its rank, or ends it, or spawns the callback. */
  ghost predicate Lowered(s: State, a: Actor, s': State)
    requires a in s.pcs
  {
    || s'.pcs == s.pcs - {a}
    || (a in s'.pcs && s'.pcs == s.pcs[a := s'.pcs[a]] && Rank(s'.pcs[a]) < Rank(s.pcs[a]))
    || (s.pcs[a] == Dispatch
        && s'.pcs == s.pcs[a := AwaitStarted(s.calls.next)][Callback(s.calls.next) := Spawned])
  }

  lemma ReloadLowers(s: State, a: Actor, r: ReloadPC, loaded: Option<Snapshot>)
    requires s.At(a, Reloading(r))
    ensures Lowered(s, a, RunReload(s, a, r, loaded))
  {}

  lemma CloseLowers(s: State, a: Actor, c: ClosePC)
    requires s.At(a, Closing(c)) && a != Worker
    ensures Lowered(s, a, RunClose(s, a, c))
  {}

  lemma OtherLowers(s: State, a: Actor, loaded: Option<Snapshot>)
    requires CanRun(s, a) && Role(s, a) && !s.pcs[a].Reloading? && !s.pcs[a].Closing?
    ensures Lowered(s, a, RunActor(s, a, loaded))
  {}

  lemma RunUsesUp(s: State, a: Actor, loaded: Option<Snapshot>)
    requires Inv(s) && CanRun(s, a)
    ensures Total(RunActor(s, a, loaded).pcs) < Total(s.pcs)
  {
    var s' := RunActor(s, a, loaded);
    var pc := s.pcs[a];
    assert Role(s, a);
    assert Lowered(s, a, s') by {
      if pc.Reloading? { ReloadLowers(s, a, pc.r, loaded); }
      else if pc.Closing? { CloseLowers(s, a, pc.c); }
      else { OtherLowers(s, a, loaded); }
    }
    LoweredTotal(s, a, s');
  }

  lemma LoweredTotal(s: State, a: Actor, s': State)
    requires a in s.pcs && Lowered(s, a, s') && CanRun(s, a) && Callback(s.calls.next) !in s.pcs
    ensures Total(s'.pcs) < Total(s.pcs)
  {
    if s'.pcs == s.pcs - {a} {
      TotalSplit(s.pcs, a);
    } else if a in s'.pcs && s'.pcs == s.pcs[a := s'.pcs[a]] {
      TotalMove(s.pcs, a, s'.pcs[a]);
    } else {
      var k := s.calls.next;
      TotalMove(s.pcs, a, AwaitStarted(k));
      TotalMove(s.pcs[a := AwaitStarted(k)], Callback(k), Spawned);
    }
  }

  lemma {:induction false} OwnStepsEnd(s: State, steps: seq<Step>)
    requires Inv(s) && IsRun(s, steps) && forall i :: 0 <= i < |steps| ==> steps[i].Run?
    ensures Inv(End(s, steps)) && |steps| <= Total(s.pcs)
    decreases |steps|
  {
    if steps != [] {
      RunUsesUp(s, steps[0].actor, steps[0].loaded);
      StepKeepsInv(s, steps[0]);
      OwnStepsEnd(Apply(s, steps[0]), steps[1..]);
    }
  }

  /** With no new calls, ticks or callback returns, the manager's own steps come to an end, and when
      none is left no Reload and no Close is waiting: every Close returns. */
  lemma EveryCloseReturns(s: State, steps: seq<Step>)
    requires Reachable(s) && IsRun(s, steps) && forall i :: 0 <= i < |steps| ==> steps[i].Run?
    ensures |steps| <= Total(s.pcs)
    ensures (forall b :: !CanRun(End(s, steps), b)) ==>
              forall a <- End(s, steps).pcs :: !End(s, steps).pcs[a].Reloading? && !End(s, steps).pcs[a].Closing?
  {
    ReachableInv(s);
    OwnStepsEnd(s, steps);
    var e := End(s, steps);
    forall a | a in e.pcs && (e.pcs[a].Reloading? || e.pcs[a].Closing?)
      ensures exists b :: CanRun(e, b)
    {
      NotStuck(e, a);
    }
  }


  // ---------- a run that reaches the late onError ----------

  lemma {:induction false} RunExtended(s: State, steps: seq<Step>, step: Step)
    requires IsRun(s, steps) && Enabled(End(s, steps), step)
    ensures IsRun(s, steps + [step]) && End(s, steps + [step]) == Apply(End(s, steps), step)
    decreases |steps|
  {
    if steps == [] {
      assert (steps + [step])[1..] == [];
    } else {
      assert (steps + [step])[1..] == steps[1..] + [step];
      RunExtended(Apply(s, steps[0]), steps[1..], step);
    }
  }

  lemma Next(s: State, step: Step) returns (s': State)
    requires Reachable(s) && Enabled(s, step)
    ensures Reachable(s') && s' == Apply(s, step)
  {
    var s0, steps :| Init(s0) && IsRun(s0, steps) && End(s0, steps) == s;
    RunExtended(s0, steps, step);
    s' := Apply(s, step);
  }

  /** The worker has started and a tick has come. */
  lemma FirstTick(s0: State) returns (s: State)
    requires Init(s0)
    ensures Reachable(s) && s.pcs == map[Worker := Reloading(Acquire)] && s.reloadMu == None
    ensures s.calls == s0.calls && s.life == s0.life.(started := true, waitGroup := 1)
  {
    assert IsRun(s0, []) && End(s0, []) == s0;
    s := Next(s0, CallStart);
    s := Next(s, Tick);
  }

  /** Its reload fails. */
  lemma FailedReload(s0: State) returns (s: State)
    requires Init(s0) && s0.calls.hasOnError
    ensures Reachable(s) && s.pcs == map[Worker := Dispatch] && s.reloadMu == None
    ensures s.calls == s0.calls && s.life == s0.life.(started := true, waitGroup := 1)
  {
    s := FirstTick(s0);
    var go := Run(Worker, None);
    s := Next(s, go);
    s := Next(s, go);
    s := Next(s, go);
    s := Next(s, go);
  }

  /** Its callback has signalled its start. */
  lemma SpawnedCallback(s0: State) returns (s: State)
    requires Init(s0) && s0.calls.hasOnError
    ensures Reachable(s) && s.pcs == map[Worker := Select, Callback(0) := Signalled] && s.reloadMu == None
    ensures s.life == s0.life.(started := true, waitGroup := 1)
  {
    s := FailedReload(s0);
    s := Next(s, Run(Worker, None));
    s := Next(s, Run(Callback(0), None));
    s := Next(s, Run(Worker, None));
  }

  /** A Close call has set closed and passed reloadMu. */
  lemma ClosingPastBarrier(s0: State) returns (s: State)
    requires Init(s0) && s0.calls.hasOnError
    ensures Reachable(s) && s.reloadMu == None
    ensures s.pcs == map[Worker := Select, Callback(0) := Signalled, Client(0) := Closing(WaitWorker)]
    ensures s.life == Lifecycle(Some(Client(0)), true, true, 1, false, false)
  {
    s := SpawnedCallback(s0);
    var close := Run(Client(0), None);
    s := Next(s, CallClose(Client(0)));
    s := Next(s, close);
    s := Next(s, close);
    s := Next(s, close);
    s := Next(s, close);
  }

  /** Close returns while that callback has not yet entered onError. */
  lemma LateOnErrorHappens(s0: State) returns (s: State)
    requires Init(s0) && s0.calls.hasOnError
    ensures Reachable(s) && s.life.closeReturned && OnErrorMayStillBegin(s)
  {
    s := ClosingPastBarrier(s0);
    s := Next(s, Run(Worker, None));
    s := Next(s, Run(Client(0), None));
    s := Next(s, Run(Client(0), None));
    assert s.At(Callback(0), Signalled);
    LateOnErrorExactly(s);
  }

  /** A Reload call has loaded a snapshot and passed its second check. */
  lemma ReadyToPublish(s0: State, n: Snapshot) returns (s: State)
    requires Init(s0)
    ensures Reachable(s) && s.pcs == map[Client(0) := Reloading(Publish(n))] && s.life == s0.life
            && s.snapshot == s0.snapshot
  {
    assert IsRun(s0, []) && End(s0, []) == s0;
    var go := Run(Client(0), Some(n));
    s := Next(s0, CallReload(Client(0)));
    s := Next(s, go);
    s := Next(s, go);
    s := Next(s, go);
    s := Next(s, go);
  }

  /** Another client's Close sets closed, and the snapshot is still replaced afterwards. */
  lemma PublishAfterClosedHappens(s0: State, n: Snapshot) returns (s: State)
    requires Init(s0) && n != s0.snapshot
    ensures Reachable(s) && s.Closed() && AtPublish(s, Client(0))
    ensures exists steps :: IsRun(s, steps) && End(s, steps).snapshot == n != s.snapshot
  {
    s := ReadyToPublish(s0, n);
    s := Next(s, CallClose(Client(1)));
    s := Next(s, Run(Client(1), None));
    var publish := Run(Client(0), None);
    assert Enabled(s, publish) && [publish][1..] == [];
    var s' := Apply(s, publish);
    assert IsRun(s', []) && End(s', []) == s';
    assert IsRun(s, [publish]) && End(s, [publish]) == s';
  }

  // ---------- what a Reload reports ----------

  /** What a run shows of one Reload call: the snapshot when it took reloadMu, whether one of its checks
      found the manager closed, what its load gave, and what the snapshot was after each publish. */
  datatype Tale = Tale(held: Option<Snapshot>, foundClosed: bool, load: Option<Option<Snapshot>>, writes: seq<Snapshot>)

  const UNTOLD := Tale(None, false, None, [])

  function Note(s: State, step: Step, s': State, a: Actor, tale: Tale): Tale {
    if !step.Run? || step.actor != a || a !in s.pcs || !s.pcs[a].Reloading? then tale
    else
      match s.pcs[a].r
      case Acquire => tale.(held := Some(s.snapshot))
      case FirstCheck => tale.(foundClosed := tale.foundClosed || s.Closed())
      case Load => tale.(load := Some(step.loaded))
      case SecondCheck(_) => tale.(foundClosed := tale.foundClosed || s.Closed())
      case Publish(_) => tale.(writes := tale.writes + [s'.snapshot])
      case Release(_) => tale
  }

  ghost function Tell(s: State, steps: seq<Step>, a: Actor, tale: Tale): Tale
    requires IsRun(s, steps)
    decreases |steps|
  {
    if steps == [] then tale
    else Tell(Apply(s, steps[0]), steps[1..], a, Note(s, steps[0], Apply(s, steps[0]), a, tale))
  }

  predicate InReload(s: State, a: Actor) { a in s.pcs && s.pcs[a].Reloading? }

  /** Throughout the run `a` is inside the Reload call it began with. */
  ghost predicate Within(s: State, steps: seq<Step>, a: Actor)
    requires IsRun(s, steps)
    decreases |steps|
  {
    InReload(s, a) && (steps == [] || Within(Apply(s, steps[0]), steps[1..], a))
  }

  /** What the tale must be for each point a Reload can have reached. */
  predicate Matches(r: ReloadPC, tale: Tale, snapshot: Snapshot) {
    match r
    case Acquire => tale == UNTOLD
    case FirstCheck => tale == Tale(Some(snapshot), false, None, [])
    case Load => tale == Tale(Some(snapshot), false, None, [])
    case SecondCheck(n) => tale == Tale(Some(snapshot), false, Some(Some(n)), [])
    case Publish(n) => tale == Tale(Some(snapshot), false, Some(Some(n)), [])
    case Release(outcome) => tale.held.Some? && Reports(outcome, tale, snapshot)
  }

  /** An outcome that says what happened: Published if and only if the snapshot was set, once, to what was
      loaded; ManagerClosed if and only if a check found the manager closed; Failed if and only if the load
      gave nothing. Only a Reload that published has changed the snapshot since it took reloadMu. */
  predicate Reports(outcome: Outcome, tale: Tale, snapshot: Snapshot)
    requires tale.held.Some?
  {
    && (outcome.Published? <==>
          tale.load.Some? && tale.load.value.Some? && tale.writes == [tale.load.value.value])
    && (outcome.ManagerClosed? <==> tale.foundClosed)
    && (outcome.Failed? <==> tale.load == Some(None))
    && (!outcome.Published? ==> tale.writes == [])
    && snapshot == (if outcome.Published? then tale.load.value.value else tale.held.value)
  }

  /** While `a` holds reloadMu nobody else sets the snapshot. */
  lemma OthersKeepSnapshot(s: State, step: Step, a: Actor)
    requires Inv(s) && Enabled(s, step) && InReload(s, a) && !s.pcs[a].r.Acquire?
    requires !(step.Run? && step.actor == a)
    ensures Apply(s, step).snapshot == s.snapshot
  {
    assert Locking(s, a);
    if step.Run? {
      assert Locking(s, step.actor);
    }
  }

  lemma OthersKeepPlace(s: State, step: Step, a: Actor)
    requires Inv(s) && Enabled(s, step) && InReload(s, a) && !(step.Run? && step.actor == a)
    ensures InReload(Apply(s, step), a) && Apply(s, step).pcs[a] == s.pcs[a]
  {
    assert Role(s, a);
  }

  lemma NoteMatches(s: State, step: Step, a: Actor, tale: Tale)
    requires Inv(s) && Enabled(s, step) && InReload(s, a) && Matches(s.pcs[a].r, tale, s.snapshot)
    requires InReload(Apply(s, step), a)
    ensures Matches(Apply(s, step).pcs[a].r, Note(s, step, Apply(s, step), a, tale), Apply(s, step).snapshot)
  {
    if !(step.Run? && step.actor == a) {
      OthersKeepPlace(s, step, a);
      if !s.pcs[a].r.Acquire? {
        OthersKeepSnapshot(s, step, a);
      }
    } else {
      OwnMatches(s, a, s.pcs[a].r, step.loaded, tale);
    }
  }

  lemma OwnMatches(s: State, a: Actor, r: ReloadPC, loaded: Option<Snapshot>, tale: Tale)
    requires s.At(a, Reloading(r)) && CanRun(s, a) && Matches(r, tale, s.snapshot)
    requires InReload(RunReload(s, a, r, loaded), a)
    ensures var s' := RunReload(s, a, r, loaded);
            Matches(s'.pcs[a].r, Note(s, Run(a, loaded), s', a, tale), s'.snapshot)
  {
  }

  lemma {:induction false} TaleMatches(s: State, steps: seq<Step>, a: Actor, tale: Tale)
    requires Inv(s) && IsRun(s, steps) && Within(s, steps, a) && Matches(s.pcs[a].r, tale, s.snapshot)
    ensures InReload(End(s, steps), a)
    ensures Matches(End(s, steps).pcs[a].r, Tell(s, steps, a, tale), End(s, steps).snapshot)
    decreases |steps|
  {
    if steps != [] {
      var s' := Apply(s, steps[0]);
      StepKeepsInv(s, steps[0]);
      assert Within(s', steps[1..], a);
      NoteMatches(s, steps[0], a, tale);
      TaleMatches(s', steps[1..], a, Note(s, steps[0], s', a, tale));
    }
  }

  /** In every run, whatever else goes on, a Reload reports what happened to it. */
  lemma ReloadReports(s: State, steps: seq<Step>, a: Actor)
    requires Reachable(s) && s.At(a, Reloading(Acquire)) && IsRun(s, steps) && Within(s, steps, a)
    requires InReload(End(s, steps), a) && End(s, steps).pcs[a].r.Release?
    ensures var tale := Tell(s, steps, a, UNTOLD);
            tale.held.Some? && Reports(End(s, steps).pcs[a].r.outcome, tale, End(s, steps).snapshot)
  {
    ReachableInv(s);
    TaleMatches(s, steps, a, UNTOLD);
  }

  /** The worker dispatches an error for exactly the reloads whose load gave nothing. */
  lemma DispatchesFailures(s: State, steps: seq<Step>)
    requires Reachable(s) && s.At(Worker, Reloading(Acquire)) && IsRun(s, steps) && Within(s, steps, Worker)
    requires InReload(End(s, steps), Worker) && End(s, steps).pcs[Worker].r.Release?
    ensures Enabled(End(s, steps), Run(Worker, None))
    ensures var after := Apply(End(s, steps), Run(Worker, None));
            && (after.At(Worker, Dispatch) <==> Tell(s, steps, Worker, UNTOLD).load == Some(None))
            && (after.At(Worker, Select) <==> Tell(s, steps, Worker, UNTOLD).load != Some(None))
            && after.reloadMu == None
  {
    ReloadReports(s, steps, Worker);
  }
}
