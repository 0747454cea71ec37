/**
  Concurrent `trust-config advance` runs over one TrustConfig file and its `.advance.lock`. A run may
  fail or crash at any step; a crash leaves the lock file behind. `trust-config create` writes the same
  file and does not take the lock.
*/
module CheckpointAdvance {
  import opened Wrappers

  type Digest = seq<bv8>

  const DIGEST_BYTES := 32
  const UINT64 := 0x1_0000_0000_0000_0000

  /** `body` is what an advancement leaves alone: chain, contract, endpoints, certificates. */
  datatype TrustConfig = TrustConfig(body: string, block: nat, blockHash: Digest, generation: nat, previous: Digest,
                                     validators: seq<string>)

  datatype Proof = Proof(block: nat, blockHash: Digest, evidence: string)

  /** The digest, the rest of the validation and the evidence verifier. */
  datatype Rules = Rules(digest: TrustConfig -> Digest, wellFormed: TrustConfig -> bool,
                         context: (TrustConfig, Proof) -> bool, history: (TrustConfig, Proof) -> Option<seq<string>>)

  predicate ValidConfig(rules: Rules, c: TrustConfig) {
    && 0 < c.generation < UINT64
    && (if c.generation == 1 then c.previous == [] else |c.previous| == DIGEST_BYTES)
    && rules.wellFormed(c)
  }

  /** AdvanceTrustConfigCheckpoint; the generation is a uint64. */
  function Advance(rules: Rules, c: TrustConfig, proof: Proof): Option<TrustConfig> {
    if !ValidConfig(rules, c) || !rules.context(c, proof) then None
    else
      match rules.history(c, proof)
      case None => None
      case Some(validators) =>
        if proof.block <= c.block then None
        else
          var next := TrustConfig(c.body, proof.block, proof.blockHash, (c.generation + 1) % UINT64,
                                  rules.digest(c), validators);
          if ValidConfig(rules, next) then Some(next) else None
  }

  /** `next` takes its checkpoint from the proof and its validators from the verified history, counts one
      generation more and names its predecessor; the rest is as it was. */
  predicate Succeeds(rules: Rules, c: TrustConfig, proof: Proof, next: TrustConfig) {
    && next.block == proof.block && next.blockHash == proof.blockHash
    && rules.history(c, proof) == Some(next.validators)
    && next.generation == c.generation + 1 && next.previous == rules.digest(c) && next.body == c.body
  }

  /** What an advancement needs: a valid config, evidence for it, a rising height, a generation that still
      fits into 64 bits, and a well-formed successor. */
  ghost predicate Granted(rules: Rules, c: TrustConfig, proof: Proof) {
    && ValidConfig(rules, c) && rules.context(c, proof) && rules.history(c, proof).Some?
    && c.block < proof.block && c.generation + 1 < UINT64 && |rules.digest(c)| == DIGEST_BYTES
    && exists next :: Succeeds(rules, c, proof, next) && rules.wellFormed(next)
  }

  /** An advancement is granted exactly then; its result is the successor, which is valid and higher. A
      generation never wraps: the overflowing advancement is refused. */
  lemma AdvanceExactly(rules: Rules, c: TrustConfig, proof: Proof)
    ensures Advance(rules, c, proof).Some? <==> Granted(rules, c, proof)
    ensures forall next :: Advance(rules, c, proof) == Some(next) ==>
              Succeeds(rules, c, proof, next) && c.block < next.block && ValidConfig(rules, next)
  {
    assert ValidConfig(rules, c) ==>
        (c.generation + 1) % UINT64 == if c.generation + 1 == UINT64 then 0 else c.generation + 1;
    if Granted(rules, c, proof) {
      var next :| Succeeds(rules, c, proof, next) && rules.wellFormed(next);
      assert next == TrustConfig(c.body, proof.block, proof.blockHash, c.generation + 1, rules.digest(c),
                                 rules.history(c, proof).value);
    } else if Advance(rules, c, proof).Some? {
      assert Succeeds(rules, c, proof, Advance(rules, c, proof).value);
    }
  }

  lemma AdvanceSteps(rules: Rules, c: TrustConfig, proof: Proof)
    requires Advance(rules, c, proof).Some?
    ensures var next := Advance(rules, c, proof).value;
            Succeeds(rules, c, proof, next) && c.block < next.block && ValidConfig(rules, next)
  {
    AdvanceExactly(rules, c, proof);
  }

  // ---------- the protocol ----------

  datatype PC =
    | Starting
    | Locked
    | Loaded(current: TrustConfig, at: nat)
    | Derived(current: TrustConfig, at: nat, next: TrustConfig)
    | Unlocking(ok: bool)
    | Returned(ok: bool)
    | Crashed

  datatype Call = Call(expected: Digest, proof: Proof)

  datatype Entry =
    | Created(config: TrustConfig)
    | Advanced(config: TrustConfig, from: TrustConfig, run: nat, at: nat)

  /** `log` is every config the file ever held, in order. A run remembers as `at` how many there were
      when it read the file, so that it read log[at - 1]. */
  datatype State = State(file: Option<TrustConfig>, lock: Option<nat>, calls: map<nat, Call>, pcs: map<nat, PC>,
                         log: seq<Entry>)

  predicate Init(s: State) {
    s == State(None, None, map[], map[], [])
  }

  datatype Step =
    | Begin(r: nat, call: Call)
    | Acquire(r: nat)       // O_CREATE|O_EXCL
    | Load(r: nat)          // read the file, compare digests
    | Derive(r: nat)
    | Replace(r: nat)       // the rename
    | Unlock(r: nat)        // the deferred remove, which names only the path
    | UnlockFails(r: nat)
    | Fail(r: nat)          // any other error after the lock was taken
    | Crash(r: nat)
    | ClearLock             // an operator removes the lock of a run that has ended
    | Create(config: TrustConfig)

  predicate Ended(pc: PC) { pc.Returned? || pc.Crashed? }

  predicate Holding(pc: PC) { pc.Locked? || pc.Loaded? || pc.Derived? || pc.Unlocking? }

  predicate Reading(pc: PC) { pc.Loaded? || pc.Derived? }

  predicate At(s: State, r: nat) { r in s.pcs && r in s.calls }

  predicate Enabled(s: State, step: Step) {
    match step
    case Begin(r, _) => r !in s.pcs
    case Acquire(r) => At(s, r) && s.pcs[r].Starting?
    case Load(r) => At(s, r) && s.pcs[r].Locked?
    case Derive(r) => At(s, r) && s.pcs[r].Loaded?
    case Replace(r) => At(s, r) && s.pcs[r].Derived?
    case Unlock(r) => At(s, r) && s.pcs[r].Unlocking?
    case UnlockFails(r) => At(s, r) && s.pcs[r].Unlocking?
    case Fail(r) => At(s, r) && Holding(s.pcs[r])
    case Crash(r) => At(s, r) && !Ended(s.pcs[r])
    case ClearLock => s.lock.Some? && s.lock.value in s.pcs && Ended(s.pcs[s.lock.value])
    case Create(_) => true
  }

  function Move(s: State, r: nat, pc: PC): State { s.(pcs := s.pcs[r := pc]) }

  function EntryOf(pc: PC, r: nat): Entry
    requires pc.Derived?
  {
    Advanced(pc.next, pc.current, r, pc.at)
  }

  function Apply(rules: Rules, s: State, step: Step): State
    requires Enabled(s, step)
  {
    match step
    case Begin(r, call) => Move(s, r, Starting).(calls := s.calls[r := call])
    case Acquire(r) => if s.lock.Some? then Move(s, r, Returned(false)) else Move(s, r, Locked).(lock := Some(r))
    case Load(r) =>
      if s.file.Some? && rules.digest(s.file.value) == s.calls[r].expected then
        Move(s, r, Loaded(s.file.value, |s.log|))
      else Move(s, r, Unlocking(false))
    case Derive(r) =>
      (match Advance(rules, s.pcs[r].current, s.calls[r].proof)
       case None => Move(s, r, Unlocking(false))
       case Some(next) => Move(s, r, Derived(s.pcs[r].current, s.pcs[r].at, next)))
    case Replace(r) =>
      Move(s, r, Unlocking(true)).(file := Some(s.pcs[r].next), log := s.log + [EntryOf(s.pcs[r], r)])
    case Unlock(r) => Move(s, r, Returned(s.pcs[r].ok)).(lock := None)
    case UnlockFails(r) => Move(s, r, Returned(s.pcs[r].ok))
    case Fail(r) => Move(s, r, Unlocking(false))
    case Crash(r) => Move(s, r, Crashed)
    case ClearLock => s.(lock := None)
    case Create(config) => s.(file := Some(config), log := s.log + [Created(config)])
  }

  // ---------- the invariant ----------

  ghost predicate LockOk(s: State) {
    && s.pcs.Keys == s.calls.Keys
    && (s.lock.Some? ==> s.lock.value in s.pcs && !s.pcs[s.lock.value].Starting?)
    && (forall r <- s.pcs :: Holding(s.pcs[r]) ==> s.lock == Some(r))
  }

  /** `config` is what the file held after `at` changes, and only creates have written since. */
  ghost predicate ReadAt(log: seq<Entry>, at: nat, config: TrustConfig, upto: nat) {
    0 < at <= upto <= |log| && log[at - 1].config == config && forall k | at <= k < upto :: log[k].Created?
  }

  /** The config a run works on is the one it read, and carries the digest the caller expected. */
  ghost predicate RunOk(rules: Rules, s: State, r: nat)
    requires At(s, r)
  {
    var pc := s.pcs[r];
    && (Reading(pc) ==> rules.digest(pc.current) == s.calls[r].expected && ReadAt(s.log, pc.at, pc.current, |s.log|))
    && (pc.Derived? ==> Advance(rules, pc.current, s.calls[r].proof) == Some(pc.next))
  }

  /** An installed config was derived from the one its run read, which had the expected digest. */
  ghost predicate EntryOk(rules: Rules, s: State, i: nat)
    requires i < |s.log|
  {
    var e := s.log[i];
    e.Advanced? ==>
      && At(s, e.run) && rules.digest(e.from) == s.calls[e.run].expected
      && Advance(rules, e.from, s.calls[e.run].proof) == Some(e.config)
      && ReadAt(s.log, e.at, e.from, i)
  }

  ghost predicate LogOk(rules: Rules, s: State) {
    && s.file == (if s.log == [] then None else Some(s.log[|s.log| - 1].config))
    && (forall i | 0 <= i < |s.log| :: EntryOk(rules, s, i))
  }

  /** A run installs at most once, and reports success only if it did. */
  ghost predicate InstallOk(s: State) {
    && (forall i, j | 0 <= i < j < |s.log| && s.log[i].Advanced? && s.log[j].Advanced? :: s.log[i].run != s.log[j].run)
    && (forall i | 0 <= i < |s.log| :: Settled(s.pcs, s.log[i]))
    && (forall r <- s.pcs :: Succeeded(s.pcs[r]) ==> Installed(s.log, r))
  }

  predicate Settled(pcs: map<nat, PC>, e: Entry) {
    e.Advanced? ==> e.run in pcs && (Ended(pcs[e.run]) || pcs[e.run].Unlocking?)
  }

  predicate Succeeded(pc: PC) { (pc.Unlocking? || pc.Returned?) && pc.ok }

  ghost predicate Installed(log: seq<Entry>, r: nat) {
    exists i :: 0 <= i < |log| && log[i].Advanced? && log[i].run == r
  }

  ghost predicate Inv(rules: Rules, s: State) {
    && LockOk(s) && LogOk(rules, s) && InstallOk(s)
    && forall r <- s.pcs :: RunOk(rules, s, r)
  }

  lemma LockKept(rules: Rules, s: State, step: Step)
    requires LockOk(s) && Enabled(s, step)
    ensures LockOk(Apply(rules, s, step))
  {
  }

  lemma RunsKept(rules: Rules, s: State, step: Step, r: nat)
    requires Inv(rules, s) && Enabled(s, step) && r in Apply(rules, s, step).pcs && LockOk(Apply(rules, s, step))
    ensures RunOk(rules, Apply(rules, s, step), r)
  {
    if r in s.pcs {
      assert RunOk(rules, s, r);
      var pc := Apply(rules, s, step).pcs[r];
      if Reading(s.pcs[r]) && Reading(pc) {
        OneStep(rules, s, step, r);
      } else if Reading(pc) {
        assert step == Load(r);
        JustRead(rules, s, r);
      }
    }
  }

  lemma JustRead(rules: Rules, s: State, r: nat)
    requires LogOk(rules, s) && Enabled(s, Load(r)) && Reading(Apply(rules, s, Load(r)).pcs[r])
    ensures At(Apply(rules, s, Load(r)), r) && RunOk(rules, Apply(rules, s, Load(r)), r)
  {
  }

  lemma EntryKept(rules: Rules, s: State, step: Step, i: nat)
    requires Inv(rules, s) && Enabled(s, step) && i < |Apply(rules, s, step).log|
    ensures EntryOk(rules, Apply(rules, s, step), i)
  {
    if i < |s.log| {
      assert EntryOk(rules, s, i);
    } else if step.Replace? {
      assert RunOk(rules, s, step.r);
    }
  }

  lemma LogKept(rules: Rules, s: State, step: Step)
    requires Inv(rules, s) && Enabled(s, step)
    ensures LogOk(rules, Apply(rules, s, step))
  {
    forall i | 0 <= i < |Apply(rules, s, step).log| ensures EntryOk(rules, Apply(rules, s, step), i) {
      EntryKept(rules, s, step, i);
    }
  }

  lemma InstalledKept(rules: Rules, s: State, step: Step, r: nat)
    requires InstallOk(s) && Enabled(s, step) && r in Apply(rules, s, step).pcs
             && Succeeded(Apply(rules, s, step).pcs[r])
    ensures Installed(Apply(rules, s, step).log, r)
  {
    var s' := Apply(rules, s, step);
    if r in s.pcs && Succeeded(s.pcs[r]) {
      assert Installed(s.log, r);
      var i :| 0 <= i < |s.log| && s.log[i].Advanced? && s.log[i].run == r;
      assert s'.log[i] == s.log[i];
    } else {
      assert step == Replace(r);
      assert s'.log[|s.log|] == EntryOf(s.pcs[r], r);
    }
  }

  lemma SettledKept(rules: Rules, s: State, step: Step, i: nat)
    requires InstallOk(s) && Enabled(s, step) && i < |Apply(rules, s, step).log|
    ensures Settled(Apply(rules, s, step).pcs, Apply(rules, s, step).log[i])
  {
    if i < |s.log| {
      assert Settled(s.pcs, s.log[i]);
    }
  }

  lemma InstallsKept(rules: Rules, s: State, step: Step)
    requires LockOk(s) && InstallOk(s) && Enabled(s, step)
    ensures InstallOk(Apply(rules, s, step))
  {
    var s' := Apply(rules, s, step);
    assert |s'.log| <= |s.log| + 1 && forall i | 0 <= i < |s.log| :: s'.log[i] == s.log[i];
    assert step.Replace? ==> s'.log[|s.log|] == EntryOf(s.pcs[step.r], step.r);
    forall i | 0 <= i < |s'.log| ensures Settled(s'.pcs, s'.log[i]) {
      SettledKept(rules, s, step, i);
    }
    forall r | r in s'.pcs && Succeeded(s'.pcs[r]) ensures Installed(s'.log, r) {
      InstalledKept(rules, s, step, r);
    }
  }

  lemma StepKeepsInv(rules: Rules, s: State, step: Step)
    requires Inv(rules, s) && Enabled(s, step)
    ensures Inv(rules, Apply(rules, s, step))
  {
    LockKept(rules, s, step);
    LogKept(rules, s, step);
    InstallsKept(rules, s, step);
    forall r | r in Apply(rules, s, step).pcs ensures RunOk(rules, Apply(rules, s, step), r) {
      RunsKept(rules, s, step, r);
    }
  }

  // ---------- every run ----------

  ghost predicate IsRun(rules: Rules, s: State, steps: seq<Step>)
    decreases |steps|
  {
    steps == [] || (Enabled(s, steps[0]) && IsRun(rules, Apply(rules, s, steps[0]), steps[1..]))
  }

  ghost function End(rules: Rules, s: State, steps: seq<Step>): State
    requires IsRun(rules, s, steps)
    decreases |steps|
  {
    if steps == [] then s else End(rules, Apply(rules, s, steps[0]), steps[1..])
  }

  ghost predicate Reachable(rules: Rules, s: State) {
    exists s0, steps :: Init(s0) && IsRun(rules, s0, steps) && End(rules, s0, steps) == s
  }

  lemma {:induction false} RunKeepsInv(rules: Rules, s: State, steps: seq<Step>)
    requires Inv(rules, s) && IsRun(rules, s, steps)
    ensures Inv(rules, End(rules, s, steps))
    decreases |steps|
  {
    if steps != [] {
      StepKeepsInv(rules, s, steps[0]);
      RunKeepsInv(rules, Apply(rules, s, steps[0]), steps[1..]);
    }
  }

  lemma ReachableInv(rules: Rules, s: State)
    requires Reachable(rules, s)
    ensures Inv(rules, s)
  {
    var s0, steps :| Init(s0) && IsRun(rules, s0, steps) && End(rules, s0, steps) == s;
    RunKeepsInv(rules, s0, steps);
  }

  lemma OneHolder(rules: Rules, s: State, r: nat, q: nat)
    requires Reachable(rules, s) && r in s.pcs && q in s.pcs && Holding(s.pcs[r]) && Holding(s.pcs[q])
    ensures r == q && s.lock == Some(r)
  {
    ReachableInv(rules, s);
  }

  /** Every installed config was derived from the config its run read, whose digest was the caller's,
      and between the read and the write nothing but creates changed the file: no advance is ever lost,
      whatever else happened in the history. */
  lemma SingleChain(rules: Rules, s: State, i: nat)
    requires Reachable(rules, s) && i < |s.log| && s.log[i].Advanced?
    ensures var e := s.log[i];
            && e.run in s.calls && 0 < e.at <= i && s.log[e.at - 1].config == e.from
            && rules.digest(e.from) == s.calls[e.run].expected
            && Advance(rules, e.from, s.calls[e.run].proof) == Some(e.config)
            && (forall k | e.at <= k < i :: s.log[k].Created?)
            && (forall j | 0 <= j < |s.log| && s.log[j].Advanced? && s.log[j].run == e.run :: j == i)
    ensures s.file == Some(s.log[|s.log| - 1].config)
  {
    ReachableInv(rules, s);
    assert EntryOk(rules, s, i);
  }

  predicate AllAdvanced(log: seq<Entry>, i: nat, j: nat) {
    i <= j < |log| && forall k | i <= k <= j :: log[k].Advanced?
  }

  /** Along a stretch of advances, starting from the config the first of them read, the block height
      rises, the generation counts, and each links to the config it replaced. */
  lemma {:induction false} NeverBackwards(rules: Rules, s: State, i: nat, j: nat)
    requires Reachable(rules, s) && AllAdvanced(s.log, i, j)
    ensures s.log[j].config.generation == s.log[i].from.generation + 1 + (j - i)
    ensures s.log[i].from.block < s.log[j].config.block
    ensures s.log[j].config.body == s.log[i].from.body
    ensures s.log[j].run in s.calls
    ensures Succeeds(rules, s.log[j].from, s.calls[s.log[j].run].proof, s.log[j].config)
    ensures i < j ==> s.log[j].at == j && s.log[j].from == s.log[j - 1].config
    decreases j
  {
    SingleChain(rules, s, j);
    AdvanceSteps(rules, s.log[j].from, s.calls[s.log[j].run].proof);
    if i < j {
      NeverBackwards(rules, s, i, j - 1);
    }
  }

  /** Of all runs started with one expected digest at most one installs along a stretch of advances,
      unless two different configs of the log have the same digest. */
  lemma OneWinner(rules: Rules, s: State, i: nat, j: nat)
    requires Reachable(rules, s) && i < j && AllAdvanced(s.log, i, j)
    requires forall k, l | 0 <= k < l < |s.log| && rules.digest(s.log[k].config) == rules.digest(s.log[l].config) ::
               s.log[k].config == s.log[l].config
    ensures s.log[i].run in s.calls && s.log[j].run in s.calls
    ensures s.calls[s.log[i].run].expected != s.calls[s.log[j].run].expected
  {
    SingleChain(rules, s, i);
    SingleChain(rules, s, j);
    NeverBackwards(rules, s, i, j - 1);
    NeverBackwards(rules, s, i, j);
    Differ(rules, s.log, s.log[i].at - 1, j - 1);
  }

  lemma Differ(rules: Rules, log: seq<Entry>, k: nat, l: nat)
    requires k < |log| && l < |log| && log[k].config.block != log[l].config.block
    requires forall i, j | 0 <= i < j < |log| && rules.digest(log[i].config) == rules.digest(log[j].config) ::
               log[i].config == log[j].config
    ensures rules.digest(log[k].config) != rules.digest(log[l].config)
  {
  }

  /** A run that reports success has installed its config. */
  lemma SuccessInstalled(rules: Rules, s: State, r: nat)
    requires Reachable(rules, s) && r in s.pcs && s.pcs[r] == Returned(true)
    ensures exists i :: 0 <= i < |s.log| && s.log[i].Advanced? && s.log[i].run == r && EntryOk(rules, s, i)
  {
    ReachableInv(rules, s);
    assert Succeeded(s.pcs[r]) && Installed(s.log, r);
    var i :| 0 <= i < |s.log| && s.log[i].Advanced? && s.log[i].run == r;
    assert EntryOk(rules, s, i);
  }

  lemma StepFrozen(rules: Rules, s: State, step: Step)
    requires LockOk(s) && Enabled(s, step) && !step.ClearLock? && !step.Create?
    requires s.lock.Some? && s.lock.value in s.pcs && Ended(s.pcs[s.lock.value])
    ensures var s' := Apply(rules, s, step);
            && s'.file == s.file && s'.lock == s.lock && s'.log == s.log
            && s.lock.value in s'.pcs && Ended(s'.pcs[s.lock.value])
  {
  }

  /** The lock of a crashed run freezes the file until an operator acts, whatever the other runs do. */
  lemma {:induction false} CrashFreezes(rules: Rules, s: State, steps: seq<Step>)
    requires Inv(rules, s) && IsRun(rules, s, steps)
    requires s.lock.Some? && s.lock.value in s.pcs && Ended(s.pcs[s.lock.value])
    requires forall step <- steps :: !step.ClearLock? && !step.Create?
    ensures End(rules, s, steps).file == s.file && End(rules, s, steps).lock == s.lock
            && End(rules, s, steps).log == s.log
    decreases |steps|
  {
    if steps != [] {
      assert steps[0] in steps;
      assert forall step <- steps[1..] :: step in steps;
      StepKeepsInv(rules, s, steps[0]);
      StepFrozen(rules, s, steps[0]);
      CrashFreezes(rules, Apply(rules, s, steps[0]), steps[1..]);
    }
  }

  // ---------- create takes no lock ----------

  /** What the creates among the steps put into the log. */
  function Creates(steps: seq<Step>): seq<Entry> {
    if steps == [] then []
    else (if steps[0].Create? then [Created(steps[0].config)] else []) + Creates(steps[1..])
  }

  predicate Past(pcs: map<nat, PC>, r: nat) { r in pcs && (Ended(pcs[r]) || pcs[r].Unlocking?) }

  /** A run that is done with the file stays done. */
  lemma {:induction false} PastStays(rules: Rules, s: State, steps: seq<Step>, r: nat)
    requires IsRun(rules, s, steps) && Past(s.pcs, r)
    ensures Past(End(rules, s, steps).pcs, r)
    decreases |steps|
  {
    if steps != [] {
      PastStays(rules, Apply(rules, s, steps[0]), steps[1..], r);
    }
  }

  lemma NotPast(rules: Rules, s: State, steps: seq<Step>, r: nat)
    requires IsRun(rules, s, steps) && r in End(rules, s, steps).pcs && Reading(End(rules, s, steps).pcs[r])
    ensures !Past(s.pcs, r)
  {
    if Past(s.pcs, r) {
      PastStays(rules, s, steps, r);
    }
  }

  lemma CreatesStep(steps: seq<Step>, log: seq<Entry>, log': seq<Entry>)
    requires steps != [] && log' == log + (if steps[0].Create? then [Created(steps[0].config)] else [])
    ensures log' + Creates(steps[1..]) == log + Creates(steps)
  {
  }

  /** While a run stands between its read and its write the log grows by exactly the creates. */
  lemma {:induction false} OnlyCreates(rules: Rules, s: State, steps: seq<Step>, r: nat)
    requires Inv(rules, s) && IsRun(rules, s, steps) && r in s.pcs && Reading(s.pcs[r])
    requires r in End(rules, s, steps).pcs && Reading(End(rules, s, steps).pcs[r])
    ensures End(rules, s, steps).log == s.log + Creates(steps)
    ensures End(rules, s, steps).pcs[r].at == s.pcs[r].at && End(rules, s, steps).pcs[r].current == s.pcs[r].current
    decreases |steps|
  {
    if steps == [] {
      assert s.log + [] == s.log;
    } else {
      var s' := Apply(rules, s, steps[0]);
      StepKeepsInv(rules, s, steps[0]);
      OneStep(rules, s, steps[0], r);
      assert Reading(s'.pcs[r]) by {
        NotPast(rules, s', steps[1..], r);
      }
      OnlyCreates(rules, s', steps[1..], r);
      CreatesStep(steps, s.log, s'.log);
    }
  }

  lemma OneStep(rules: Rules, s: State, step: Step, r: nat)
    requires LockOk(s) && Enabled(s, step) && r in s.pcs && Reading(s.pcs[r])
    ensures var s' := Apply(rules, s, step);
            && r in s'.pcs && (Reading(s'.pcs[r]) || Past(s'.pcs, r))
            && (Reading(s'.pcs[r]) ==>
                  && s'.pcs[r].at == s.pcs[r].at && s'.pcs[r].current == s.pcs[r].current
                  && s'.log == s.log + (if step.Create? then [Created(step.config)] else []))
  {
  }

  /** The advance `e` that follows the read of the last entry of `log` and the given steps is derived
      from the config it replaces if and only if no create ran between its read and its write; otherwise
      it overwrites the last of those creates unseen. */
  ghost predicate Overwrites(log: seq<Entry>, steps: seq<Step>, log': seq<Entry>, e: Entry, r: nat) {
    && e.Advanced? && e.run == r && 0 < e.at == |log| && log[e.at - 1].config == e.from
    && log' == log + Creates(steps)
    && (e.at == |log'| <==> forall step <- steps :: !step.Create?)
    && (e.at < |log'| ==> Creates(steps) != [] && log'[|log'| - 1] == Creates(steps)[|Creates(steps)| - 1])
  }

  lemma WriteAfterRead(rules: Rules, s: State, steps: seq<Step>, t: State, r: nat)
    requires Inv(rules, s) && r in s.pcs && s.pcs[r].Loaded? && s.pcs[r].at == |s.log|
    requires IsRun(rules, s, steps) && t == End(rules, s, steps) && Enabled(t, Replace(r))
    ensures Overwrites(s.log, steps, t.log, EntryOf(t.pcs[r], r), r)
  {
    assert RunOk(rules, s, r);
    OnlyCreates(rules, s, steps, r);
    NoCreates(steps);
  }

  lemma OverwritesExactly(rules: Rules, s: State, steps: seq<Step>, r: nat)
    requires Reachable(rules, s) && Enabled(s, Load(r)) && Apply(rules, s, Load(r)).pcs[r].Loaded?
    requires IsRun(rules, Apply(rules, s, Load(r)), steps)
    requires Enabled(End(rules, Apply(rules, s, Load(r)), steps), Replace(r))
    ensures var t := End(rules, Apply(rules, s, Load(r)), steps);
            var t' := Apply(rules, t, Replace(r));
            |t'.log| == |t.log| + 1 && t'.log[..|t.log|] == t.log && Overwrites(s.log, steps, t.log, t'.log[|t.log|], r)
  {
    ReachableInv(rules, s);
    StepKeepsInv(rules, s, Load(r));
    WriteAfterRead(rules, Apply(rules, s, Load(r)), steps, End(rules, Apply(rules, s, Load(r)), steps), r);
  }

  lemma {:induction false} NoCreates(steps: seq<Step>)
    ensures Creates(steps) == [] <==> forall step <- steps :: !step.Create?
    decreases |steps|
  {
    if steps != [] {
      NoCreates(steps[1..]);
      assert forall step :: step in steps <==> step == steps[0] || step in steps[1..];
    }
  }

  /** It happens, for every config that can be advanced and every other one that is created. */
  lemma LostUpdate(rules: Rules, config: TrustConfig, call: Call, next: TrustConfig, other: TrustConfig)
    requires rules.digest(config) == call.expected && Advance(rules, config, call.proof) == Some(next)
             && other != config
    ensures exists s :: Reachable(rules, s) && s.file == Some(next)
              && s.log == [Created(config), Created(other), Advanced(next, config, 0, 1)]
  {
    var s := Underway(rules, State(None, None, map[], map[], []), config, call, next);
    StepReachable(rules, s, Create(other));
    var s1 := Apply(rules, s, Create(other));
    StepReachable(rules, s1, Replace(0));
    var s2 := Apply(rules, s1, Replace(0));
    assert s2.log == [Created(config), Created(other), Advanced(next, config, 0, 1)];
  }

  /** A create, then a run up to its write. */
  lemma Underway(rules: Rules, s: State, config: TrustConfig, call: Call, next: TrustConfig) returns (s': State)
    requires Init(s) && rules.digest(config) == call.expected && Advance(rules, config, call.proof) == Some(next)
    ensures Reachable(rules, s')
    ensures s' == State(Some(config), Some(0), map[0 := call], map[0 := Derived(config, 1, next)], [Created(config)])
  {
    assert IsRun(rules, s, []) && End(rules, s, []) == s;
    s' := Begun(rules, s, config, call);
    StepReachable(rules, s', Derive(0));
    s' := Apply(rules, s', Derive(0));
  }

  /** A create, then a run up to its read. */
  lemma Begun(rules: Rules, s: State, config: TrustConfig, call: Call) returns (s': State)
    requires Init(s) && Reachable(rules, s) && rules.digest(config) == call.expected
    ensures Reachable(rules, s')
    ensures s' == State(Some(config), Some(0), map[0 := call], map[0 := Loaded(config, 1)], [Created(config)])
  {
    StepReachable(rules, s, Create(config));
    var s1 := Apply(rules, s, Create(config));
    StepReachable(rules, s1, Begin(0, call));
    var s2 := Apply(rules, s1, Begin(0, call));
    StepReachable(rules, s2, Acquire(0));
    var s3 := Apply(rules, s2, Acquire(0));
    StepReachable(rules, s3, Load(0));
    s' := Apply(rules, s3, Load(0));
  }

  lemma StepReachable(rules: Rules, s: State, step: Step)
    requires Reachable(rules, s) && Enabled(s, step)
    ensures Reachable(rules, Apply(rules, s, step))
  {
    var s0, steps :| Init(s0) && IsRun(rules, s0, steps) && End(rules, s0, steps) == s;
    OneMore(rules, s0, steps, step);
  }

  lemma {:induction false} OneMore(rules: Rules, s: State, steps: seq<Step>, step: Step)
    requires IsRun(rules, s, steps) && Enabled(End(rules, s, steps), step)
    ensures IsRun(rules, s, steps + [step]) && End(rules, s, steps + [step]) == Apply(rules, End(rules, s, steps), step)
    decreases |steps|
  {
    if steps == [] {
      assert [step][1..] == [] && [] + [step] == [step];
      assert IsRun(rules, Apply(rules, s, step), []);
    } else {
      OneMore(rules, Apply(rules, s, steps[0]), steps[1..], step);
      assert (steps + [step])[1..] == steps[1..] + [step];
    }
  }

  // ---------- a run nothing disturbs ----------

  /** A step of run `r` in which nothing fails. */
  predicate Smooth(step: Step, r: nat) {
    (step.Begin? || step.Acquire? || step.Load? || step.Derive? || step.Replace? || step.Unlock?) && step.r == r
  }

  ghost predicate Reaches(rules: Rules, s: State, r: nat, steps: seq<Step>, t: State) {
    IsRun(rules, s, steps) && End(rules, s, steps) == t && forall i | 0 <= i < |steps| :: Smooth(steps[i], r)
  }

  lemma Onward(rules: Rules, s: State, r: nat, steps: seq<Step>, t: State, step: Step) returns (more: seq<Step>)
    requires Reaches(rules, s, r, steps, t) && Enabled(t, step) && Smooth(step, r)
    ensures Reaches(rules, s, r, more, Apply(rules, t, step))
  {
    OneMore(rules, s, steps, step);
    more := steps + [step];
  }

  /** What a run needs from the file and the lock. */
  ghost predicate Welcome(rules: Rules, s: State, call: Call) {
    && s.lock.None? && s.file.Some? && rules.digest(s.file.value) == call.expected
    && Granted(rules, s.file.value, call.proof)
  }

  /** How a run that is not disturbed ends. */
  ghost predicate Concluded(rules: Rules, s: State, r: nat, call: Call, s': State) {
    && r in s'.pcs && s'.pcs[r].Returned? && s'.lock == s.lock
    && (s'.pcs[r].ok <==> Welcome(rules, s, call))
    && (if s'.pcs[r].ok then s.file.Some? && s'.file.Some? && Succeeds(rules, s.file.value, call.proof, s'.file.value)
        else s'.file == s.file)
  }

  /** A run that nothing fails or interferes with succeeds if and only if the lock is free, the file holds the
      expected config and the advancement is granted; it then installs the successor, and otherwise leaves
      the file alone. Either way the lock is as before. */
  lemma Undisturbed(rules: Rules, s: State, r: nat, call: Call) returns (steps: seq<Step>, s': State)
    requires r !in s.pcs
    ensures Reaches(rules, s, r, steps, s') && Concluded(rules, s, r, call, s')
  {
    assert Reaches(rules, s, r, [], s);
    steps := Onward(rules, s, r, [], s, Begin(r, call));
    var s1 := Apply(rules, s, Begin(r, call));
    steps := Onward(rules, s, r, steps, s1, Acquire(r));
    s' := Apply(rules, s1, Acquire(r));
    if s.lock.None? {
      steps, s' := FromLocked(rules, s, r, call, steps, s');
    }
  }

  /** The state of a run that has the lock. */
  predicate Underlock(s: State, r: nat, call: Call, t: State, pc: PC) {
    t == State(s.file, Some(r), s.calls[r := call], s.pcs[r := pc], s.log)
  }

  lemma FromLocked(rules: Rules, s: State, r: nat, call: Call, steps: seq<Step>, t: State)
    returns (more: seq<Step>, s': State)
    requires s.lock.None? && Reaches(rules, s, r, steps, t) && Underlock(s, r, call, t, Locked)
    ensures Reaches(rules, s, r, more, s') && Concluded(rules, s, r, call, s')
  {
    more := Onward(rules, s, r, steps, t, Load(r));
    var t1 := Apply(rules, t, Load(r));
    if s.file.Some? && rules.digest(s.file.value) == call.expected {
      assert Underlock(s, r, call, t1, Loaded(s.file.value, |s.log|));
      more, s' := FromLoaded(rules, s, r, call, more, t1);
    } else {
      more := Onward(rules, s, r, more, t1, Unlock(r));
      s' := Apply(rules, t1, Unlock(r));
    }
  }

  lemma FromLoaded(rules: Rules, s: State, r: nat, call: Call, steps: seq<Step>, t: State)
    returns (more: seq<Step>, s': State)
    requires s.lock.None? && s.file.Some? && rules.digest(s.file.value) == call.expected
    requires Reaches(rules, s, r, steps, t) && Underlock(s, r, call, t, Loaded(s.file.value, |s.log|))
    ensures Reaches(rules, s, r, more, s') && Concluded(rules, s, r, call, s')
  {
    AdvanceExactly(rules, s.file.value, call.proof);
    more := Onward(rules, s, r, steps, t, Derive(r));
    s' := Apply(rules, t, Derive(r));
    if Granted(rules, s.file.value, call.proof) {
      more := Onward(rules, s, r, more, s', Replace(r));
      s' := Apply(rules, s', Replace(r));
    }
    more := Onward(rules, s, r, more, s', Unlock(r));
    s' := Apply(rules, s', Unlock(r));
  }
}
