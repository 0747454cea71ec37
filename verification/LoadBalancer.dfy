/**
  The client-side load balancer: rotation, failover and the cache of subscription owners. An endpoint is
  its index; what a call to it answers is a parameter of the operation, and `called` is the sequence of
  endpoints the operation called.
*/
module LoadBalancer {
  import opened Wrappers

  /** `wraps` says that the SDK error carries an underlying error. */
  datatype Error = Opaque(text: string) | Sdk(status: nat, code: string, retryable: bool, wraps: bool)

  datatype Reply<+T> = Ok(value: T) | Err(error: Error)

  datatype Mode = RoundRobin | Failover

  const UINT64 := 0x1_0000_0000_0000_0000
  const CODE_NOT_FOUND := "NOT_FOUND"

  predicate IsNotFound(e: Error) { e.Sdk? && (e.status == 404 || e.code == CODE_NOT_FOUND) }

  predicate Retryable(e: Error) {
    || e.Opaque?
    || e.retryable
    || (e.status == 0 && e.code == "" && e.wraps)
    || e.status in {408, 429, 502, 503, 504}
  }

  // ---------- rotation ----------

  predicate InRange(list: seq<nat>, n: nat) { forall k | 0 <= k < |list| :: list[k] < n }

  function Rotation(start: nat, n: nat): (list: seq<nat>)
    requires start < n || n == 0
    ensures |list| == n && InRange(list, n)
  {
    seq(n, k requires 0 <= k < n => if start + k >= n then start + k - n else start + k)
  }

  /** A rotation names every endpoint exactly once. */
  lemma RotationOnce(start: nat, n: nat, e: nat)
    requires start < n && e < n
    ensures exists k :: 0 <= k < n && Rotation(start, n)[k] == e
    ensures forall k, l | 0 <= k < n && 0 <= l < n && Rotation(start, n)[k] == Rotation(start, n)[l] :: k == l
    ensures forall k | 0 <= k < n :: Rotation(start, n)[k] == (start + k) % n
  {
    var k := if start <= e then e - start else e + n - start;
    assert Rotation(start, n)[k] == e;
    forall k | 0 <= k < n ensures Rotation(start, n)[k] == (start + k) % n {
      Remainder(start + k, n);
    }
  }

  lemma Remainder(m: nat, n: nat)
    requires 0 < n && m < 2 * n
    ensures m % n == if m >= n then m - n else m
  {
    if m >= n {
      Cycle(m - n, n);
    }
  }

  /** The index computed by remainder is the one computed by subtraction. */
  method Turn(start: nat, offset: nat, n: nat) returns (index: nat)
    requires start < n && offset < n
    ensures index == Rotation(start, n)[offset]
  {
    Remainder(start + offset, n);
    index := (start + offset) % n;
  }

  lemma Cycle(m: nat, n: nat)
    requires 0 < n
    ensures (m + n) % n == m % n && (m + n) / n == m / n + 1
  {
    Quotient(m + n, n, m / n + 1, m % n);
  }

  lemma Quotient(m: nat, n: nat, q: nat, r: nat)
    requires 0 < n && m == q * n + r && r < n
    ensures m / n == q && m % n == r
  {
    var q', r' := m / n, m % n;
    assert m == q' * n + r';
    if q > q' {
      Apart(q, q', n);
    } else if q' > q {
      Apart(q', q, n);
    }
  }

  lemma {:induction false} Apart(a: nat, b: nat, n: nat)
    requires a > b && n > 0
    ensures a * n >= b * n + n
  {
    assert a * n == (a - 1) * n + n;
    if a - 1 > b {
      Apart(a - 1, b, n);
    }
  }

  // ---------- round robin ----------

  /** How many of the first `count` starts from counter value c begin at e, the counter not wrapping. */
  ghost function Starts(c: nat, count: nat, n: nat, e: nat): nat
    requires 0 < n
  {
    if count == 0 then 0 else Starts(c, count - 1, n, e) + if (c + count - 1) % n == e then 1 else 0
  }

  lemma {:induction false} StartsAre(c: nat, count: nat, n: nat, e: nat)
    requires e < n
    ensures Starts(c, count, n, e) == (c + count + n - 1 - e) / n - (c + n - 1 - e) / n
    decreases count
  {
    if count > 0 {
      StartsAre(c, count - 1, n, e);
      NextQuotient(c + count - 1, n, e);
    }
  }

  lemma NextQuotient(m: nat, n: nat, e: nat)
    requires e < n
    ensures (m + n - e) / n == (m + n - 1 - e) / n + if m % n == e then 1 else 0
  {
    var q, r := m / n, m % n;
    assert m == q * n + r;
    if r < e {
      Quotient(m + n - e, n, q, r + n - e);
      Quotient(m + n - 1 - e, n, q, r + n - 1 - e);
    } else {
      assert (q + 1) * n == q * n + n;
      Quotient(m + n - e, n, q + 1, r - e);
      if r == e {
        Quotient(m + n - 1 - e, n, q, n - 1);
      } else {
        Quotient(m + n - 1 - e, n, q + 1, r - 1 - e);
      }
    }
  }

  /** Round robin is fair: over any window of calls before the counter wraps, every endpoint is the start
      either the floor or the ceiling of its share. */
  lemma FairStarts(c: nat, count: nat, n: nat, e: nat)
    requires e < n && c + count <= UINT64
    ensures Starts(c, count, n, e) == count / n || Starts(c, count, n, e) == count / n + 1
    ensures count % n == 0 ==> Starts(c, count, n, e) == count / n
  {
    StartsAre(c, count, n, e);
    Spread(c + n - 1 - e, count, n);
  }

  lemma Spread(a: nat, count: nat, n: nat)
    requires 0 < n
    ensures (a + count) / n - a / n == count / n + if a % n + count % n >= n then 1 else 0
  {
    Parts(a, n);
    Parts(count, n);
    SpreadAt(a + count, n, a / n, a % n, count / n, count % n);
  }

  lemma Parts(m: nat, n: nat)
    requires 0 < n
    ensures m == (m / n) * n + m % n
  {
  }

  lemma SpreadAt(m: nat, n: nat, q: nat, r: nat, p: nat, t: nat)
    requires r < n && t < n && m == q * n + r + (p * n + t)
    ensures m / n == q + p + if r + t >= n then 1 else 0
  {
    Distribute(q, p, n);
    if r + t < n {
      Quotient(m, n, q + p, r + t);
    } else {
      Distribute(q + p, 1, n);
      Quotient(m, n, q + p + 1, r + t - n);
    }
  }

  lemma Distribute(q: nat, p: nat, n: nat)
    ensures (q + p) * n == q * n + p * n
  {
  }

  /** The starts keep cycling through the wrap of the counter exactly when n divides 2^64. */
  lemma CyclesThroughWrap(n: nat)
    requires 0 < n < UINT64
    ensures (forall c: nat | c < UINT64 :: ((c + 1) % UINT64) % n == (c % n + 1) % n) <==> UINT64 % n == 0
  {
    if UINT64 % n == 0 {
      forall c: nat | c < UINT64 ensures ((c + 1) % UINT64) % n == (c % n + 1) % n {
        Successor(c, n);
        if c + 1 < UINT64 {
          Remainder(c + 1, UINT64);
        }
      }
    } else {
      var c := UINT64 - 1;
      Successor(c, n);
      Remainder(0, n);
      assert ((c + 1) % UINT64) % n != (c % n + 1) % n;
    }
  }

  lemma Successor(c: nat, n: nat)
    requires 0 < n
    ensures (c + 1) % n == (c % n + 1) % n
  {
    var q, r := c / n, c % n;
    if r + 1 < n {
      Quotient(c + 1, n, q, r + 1);
      Quotient(r + 1, n, 0, r + 1);
    } else {
      assert (q + 1) * n == q * n + n;
      Quotient(c + 1, n, q + 1, 0);
      Quotient(n, n, 1, 0);
    }
  }

  // ---------- failover ----------

  datatype Outcome<+T> =
    | Done(value: T, tries: nat)
    | Failed(errors: seq<(nat, Error)>, tries: nat)
    | Cancelled(cause: Error, tries: nat)

  /** Go down the list from position k until a success, a final error or the end of the context. */
  function Scan<T>(list: seq<nat>, context: nat -> Option<Error>, fn: nat -> Reply<T>, k: nat,
                   errors: seq<(nat, Error)>): Outcome<T>
    requires k <= |list|
    decreases |list| - k
  {
    if k == |list| then Failed(errors, k)
    else if context(k).Some? then Cancelled(context(k).value, k)
    else
      match fn(list[k])
      case Ok(value) => Done(value, k + 1)
      case Err(e) =>
        if Retryable(e) then Scan(list, context, fn, k + 1, errors + [(list[k], e)])
        else Failed(errors + [(list[k], e)], k + 1)
  }

  /** The first k endpoints of the list were called and failed in a way that allows another try. */
  ghost predicate Passed<T>(list: seq<nat>, context: nat -> Option<Error>, fn: nat -> Reply<T>, k: nat) {
    k <= |list| && forall j | 0 <= j < k :: Passable(list[j], context(j), fn)
  }

  ghost predicate Passable<T>(e: nat, context: Option<Error>, fn: nat -> Reply<T>) {
    context.None? && fn(e).Err? && Retryable(fn(e).error)
  }

  ghost predicate Reports<T>(list: seq<nat>, fn: nat -> Reply<T>, errors: seq<(nat, Error)>, k: nat) {
    |errors| == k <= |list| && forall j | 0 <= j < k :: fn(list[j]) == Err(errors[j].1) && errors[j].0 == list[j]
  }

  /** What each way of ending says about every endpoint of the list. */
  ghost predicate Explains<T>(list: seq<nat>, context: nat -> Option<Error>, fn: nat -> Reply<T>, out: Outcome<T>) {
    && out.tries <= |list|
    && match out
       case Done(value, t) => 0 < t && Passed(list, context, fn, t - 1) && context(t - 1).None?
                              && fn(list[t - 1]) == Ok(value)
       case Failed(errors, t) =>
         && Reports(list, fn, errors, t)
         && if Passed(list, context, fn, t) then t == |list|
            else 0 < t && Passed(list, context, fn, t - 1) && context(t - 1).None?
       case Cancelled(cause, t) => t < |list| && Passed(list, context, fn, t) && context(t) == Some(cause)
  }

  lemma {:induction false} ScanExplains<T>(list: seq<nat>, context: nat -> Option<Error>, fn: nat -> Reply<T>, k: nat,
                                           errors: seq<(nat, Error)>)
    requires Passed(list, context, fn, k) && Reports(list, fn, errors, k)
    ensures Explains(list, context, fn, Scan(list, context, fn, k, errors))
    decreases |list| - k
  {
    if k < |list| && context(k).None? && fn(list[k]).Err? {
      if Retryable(fn(list[k]).error) {
        ScanExplains(list, context, fn, k + 1, errors + [(list[k], fn(list[k]).error)]);
      } else {
        assert !Passable(list[k], context(k), fn);
      }
    }
  }

  /** An operation succeeds exactly when some endpoint of the rotation answers and every endpoint before
      it failed retryably with the context alive; so endpoints that are merely down never stop it. */
  lemma SucceedsExactly<T>(list: seq<nat>, context: nat -> Option<Error>, fn: nat -> Reply<T>)
    ensures Scan(list, context, fn, 0, []).Done? <==> exists k :: Reached(list, context, fn, k)
  {
    var out := Scan(list, context, fn, 0, []);
    ScanExplains(list, context, fn, 0, []);
    if out.Done? {
      assert Reached(list, context, fn, out.tries - 1);
    } else if exists k :: Reached(list, context, fn, k) {
      var k :| Reached(list, context, fn, k);
      StopsOnce(list, context, fn, out, k);
    }
  }

  /** With another endpoint left, an error ends the operation if and only if it is the SDK's own, not marked
      retryable, not a bare wrapped error, and its status is none of 408, 429 and 502 to 504. */
  lemma StopsExactly<T>(list: seq<nat>, context: nat -> Option<Error>, fn: nat -> Reply<T>)
    requires 2 <= |list| && context(0).None? && fn(list[0]).Err?
    ensures var e := fn(list[0]).error;
            Scan(list, context, fn, 0, []) == Failed([(list[0], e)], 1) <==>
              && e.Sdk? && !e.retryable && !(e.wraps && e.status == 0 && e.code == "")
              && e.status != 408 && e.status != 429 && !(502 <= e.status <= 504)
  {
    var e := fn(list[0]).error;
    assert [] + [(list[0], e)] == [(list[0], e)];
    ScanExplains(list, context, fn, 0, []);
    if Retryable(e) {
      assert Passable(list[0], context(0), fn) && Passed(list, context, fn, 1);
    }
  }

  ghost predicate Reached<T>(list: seq<nat>, context: nat -> Option<Error>, fn: nat -> Reply<T>, k: nat) {
    k < |list| && Passed(list, context, fn, k) && context(k).None? && fn(list[k]).Ok?
  }

  lemma StopsOnce<T>(list: seq<nat>, context: nat -> Option<Error>, fn: nat -> Reply<T>, out: Outcome<T>, k: nat)
    requires Explains(list, context, fn, out) && Reached(list, context, fn, k)
    ensures out == Done(fn(list[k]).value, k + 1)
  {
    assert !Passable(list[k], context(k), fn);
    var t := out.tries;
    assert out.Done? ==> !Passable(list[t - 1], context(t - 1), fn);
    assert out.Cancelled? ==> !Passable(list[t], context(t), fn);
  }

  /** The loop with the wrapped index. */
  method Try<T>(n: nat, start: nat, context: nat -> Option<Error>, fn: nat -> Reply<T>)
    returns (out: Outcome<T>, called: seq<nat>)
    requires start < n
    ensures out == Scan(Rotation(start, n), context, fn, 0, []) && out.tries <= n
            && called == Rotation(start, n)[..out.tries]
  {
    ghost var list := Rotation(start, n);
    ghost var whole := Scan(list, context, fn, 0, []);
    var errors: seq<(nat, Error)> := [];
    called := [];
    for offset := 0 to n
      invariant called == list[..offset]
      invariant whole == Scan(list, context, fn, offset, errors)
    {
      var index: nat := start + offset;
      if index >= n {
        index := index - n;
      }
      assert index == list[offset];
      if context(offset).Some? {
        return Cancelled(context(offset).value, offset), called;
      }
      called := called + [index];
      var reply := fn(index);
      if reply.Ok? {
        return Done(reply.value, offset + 1), called;
      }
      errors := errors + [(index, reply.error)];
      if !Retryable(reply.error) {
        return Failed(errors, offset + 1), called;
      }
    }
    out := Failed(errors, n);
  }

  // ---------- subscription owners ----------

  /** Who answers a subscription operation: endpoints are asked in order from k, those without
      subscriptions are skipped, and a not-found answer passes on. */
  function Ask<T>(supports: seq<bool>, reply: nat -> Reply<T>, k: nat): (answer: Option<nat>)
    requires k <= |supports|
    ensures answer.Some? ==> k <= answer.value < |supports| && supports[answer.value] && !Missing(reply(answer.value))
    ensures forall e | k <= e < (if answer.Some? then answer.value else |supports|) :: supports[e] ==> Missing(reply(e))
    decreases |supports| - k
  {
    if k == |supports| then None
    else if supports[k] && !Missing(reply(k)) then Some(k)
    else Ask(supports, reply, k + 1)
  }

  predicate Missing<T>(r: Reply<T>) { r.Err? && IsNotFound(r.error) }

  /** An answer is passed on if and only if it is an error of the SDK with status 404 or code NOT_FOUND. */
  lemma AskPassesExactly<T>(supports: seq<bool>, reply: nat -> Reply<T>, k: nat)
    requires k < |supports| && supports[k]
    ensures Ask(supports, reply, k) == Some(k) <==>
              || reply(k).Ok? || reply(k).error.Opaque?
              || (reply(k).error.status != 404 && reply(k).error.code != "NOT_FOUND")
  {
    var answer := Ask(supports, reply, k);
    assert answer == Some(k) <==> !Missing(reply(k));
  }

  /** Every endpoint that takes subscriptions, other than h, answers not-found, at every attempt. */
  ghost predicate OnlyHolder<T>(supports: seq<bool>, first: nat -> Reply<T>, later: nat -> Reply<T>, h: nat) {
    && h < |supports| && supports[h] && !Missing(first(h)) && !Missing(later(h))
    && forall e | 0 <= e < |supports| && e != h && supports[e] :: Missing(first(e)) && Missing(later(e))
  }

  lemma AskFindsHolder<T>(supports: seq<bool>, first: nat -> Reply<T>, later: nat -> Reply<T>, h: nat)
    requires OnlyHolder(supports, first, later, h)
    ensures Ask(supports, later, 0) == Some(h)
  {
    var answer := Ask(supports, later, 0);
    assert answer.Some? ==> answer.value == h;
  }

  lemma HolderIs<T>(supports: seq<bool>, first: nat -> Reply<T>, later: nat -> Reply<T>, h: nat, e: nat)
    requires OnlyHolder(supports, first, later, h) && e < |supports| && supports[e] && !Missing(first(e))
    ensures e == h
  {
  }

  predicate Refused(r: Reply<string>) { r.Err? && Retryable(r.error) }

  /** What a create did: it called endpoints of the rotation that take subscriptions, in order, each but
      the last refused, and it gave up only when all of them had. */
  ghost predicate Created(whole: seq<nat>, fn: nat -> Reply<string>, out: Reply<string>, called: seq<nat>) {
    && called <= whole
    && (forall k | 0 <= k < |called| - 1 :: Refused(fn(called[k])))
    && (called == [] ==> out.Err? && whole == [])
    && (called != [] ==> out == fn(called[|called| - 1]) && (Refused(out) ==> called == whole))
  }

  /** The endpoints of a list that take subscriptions. */
  function Subscribing(supports: seq<bool>, list: seq<nat>): (r: seq<nat>)
    requires InRange(list, |supports|)
    ensures forall k | 0 <= k < |r| :: r[k] < |supports| && supports[r[k]]
  {
    if list == [] then [] else
      var last := list[|list| - 1];
      Subscribing(supports, list[..|list| - 1]) + if supports[last] then [last] else []
  }

  lemma {:induction false} SubscribingPrefix(supports: seq<bool>, list: seq<nat>, k: nat)
    requires InRange(list, |supports|) && k <= |list|
    ensures Subscribing(supports, list[..k]) <= Subscribing(supports, list)
    decreases |list|
  {
    if k < |list| {
      SubscribingPrefix(supports, list[..|list| - 1], k);
      assert list[..|list| - 1][..k] == list[..k];
    } else {
      assert list[..k] == list;
    }
  }

  lemma SubscribingStep(supports: seq<bool>, list: seq<nat>, k: nat)
    requires InRange(list, |supports|) && k < |list|
    ensures Subscribing(supports, list[..k + 1]) ==
            Subscribing(supports, list[..k]) + if supports[list[k]] then [list[k]] else []
    ensures Subscribing(supports, list[..k + 1]) <= Subscribing(supports, list)
  {
    assert list[..k + 1][..k] == list[..k];
    SubscribingPrefix(supports, list, k + 1);
  }

  method TryCreate(supports: seq<bool>, start: nat, fn: nat -> Reply<string>)
    returns (out: Reply<string>, called: seq<nat>)
    requires start < |supports|
    ensures Created(Subscribing(supports, Rotation(start, |supports|)), fn, out, called)
  {
    ghost var list := Rotation(start, |supports|);
    ghost var whole := Subscribing(supports, list);
    out, called := Err(Sdk(0, "", false, false)), [];
    assert list[..0] == [];
    for offset := 0 to |supports|
      invariant InRange(list, |supports|) && |list| == |supports| && list == Rotation(start, |supports|)
      invariant called == Subscribing(supports, list[..offset]) && StillRefused(fn, out, called)
    {
      var index := Turn(start, offset, |supports|);
      SubscribingStep(supports, list, offset);
      if supports[index] {
        var before := out;
        out := fn(index);
        AskedOne(whole, fn, before, called, index);
        called := called + [index];
        if !Refused(out) {
          return;
        }
      }
    }
    assert list[..|supports|] == list;
    GaveUp(whole, fn, out, called);
  }

  /** Everyone asked so far refused. */
  ghost predicate StillRefused(fn: nat -> Reply<string>, out: Reply<string>, called: seq<nat>) {
    && out.Err? && (called != [] ==> out == fn(called[|called| - 1]))
    && (forall k | 0 <= k < |called| :: Refused(fn(called[k])))
  }

  lemma AskedOne(whole: seq<nat>, fn: nat -> Reply<string>, out: Reply<string>, called: seq<nat>, index: nat)
    requires StillRefused(fn, out, called) && called + [index] <= whole
    ensures !Refused(fn(index)) ==> Created(whole, fn, fn(index), called + [index])
    ensures Refused(fn(index)) ==> StillRefused(fn, fn(index), called + [index])
  {
  }

  lemma GaveUp(whole: seq<nat>, fn: nat -> Reply<string>, out: Reply<string>, called: seq<nat>)
    requires StillRefused(fn, out, called) && called == whole
    ensures Created(whole, fn, out, called)
  {
  }

  class Balancer {
    const supports: seq<bool>   // which endpoint transports take status subscriptions
    const mode: Mode
    var next: nat
    var owners: map<string, nat>

    ghost predicate Valid()
      reads this
    {
      && |supports| > 0 && next < UINT64
      && forall id <- owners :: owners[id] < |supports| && supports[owners[id]]
    }

    constructor (supports: seq<bool>, mode: Mode)
      requires |supports| > 0
      ensures Valid() && this.supports == supports && this.mode == mode && next == 0 && owners == map[]
    {
      this.supports, this.mode, next, owners := supports, mode, 0, map[];
    }

    /** The k-th call since counter value c starts at (c + k) % n; failover always starts at the first. */
    method StartIndex() returns (start: nat)
      requires Valid()
      modifies this`next
      ensures Valid() && start < |supports|
      ensures mode == Failover ==> start == 0 && next == old(next)
      ensures mode == RoundRobin ==> start == old(next) % |supports| && next == (old(next) + 1) % UINT64
    {
      if mode == Failover {
        return 0;
      }
      next := (next + 1) % UINT64;
      start := ((next + UINT64 - 1) % UINT64) % |supports|;
      assert old(next) == (next + UINT64 - 1) % UINT64;
    }

    /** An operation scans the endpoint list rotated to its start, and calls a prefix of it. */
    method TryEndpoints<T>(context: nat -> Option<Error>, fn: nat -> Reply<T>)
      returns (out: Outcome<T>, called: seq<nat>)
      requires Valid()
      modifies this`next
      ensures Valid()
      ensures var start := if mode == Failover then 0 else old(next) % |supports|;
              var list := Rotation(start, |supports|);
              && out == Scan(list, context, fn, 0, [])
              && Explains(list, context, fn, out) && called == list[..out.tries]
    {
      var start := StartIndex();
      out, called := Try(|supports|, start, context, fn);
      ScanExplains(Rotation(start, |supports|), context, fn, 0, []);
    }

    /** The created subscription is cached under the endpoint that created it; an endpoint is asked only
        while every earlier one failed retryably or takes no subscriptions. Of the joined errors `out`
        is the last. */
    method CreateStatusSubscription(fn: nat -> Reply<string>) returns (out: Reply<string>, called: seq<nat>)
      requires Valid()
      modifies this
      ensures Valid()
      ensures var start := if mode == Failover then 0 else old(next) % |supports|;
              Created(Subscribing(supports, Rotation(start, |supports|)), fn, out, called)
      ensures owners == if out.Ok? then old(owners)[out.value := called[|called| - 1]] else old(owners)
    {
      var start := StartIndex();
      out, called := TryCreate(supports, start, fn);
      if out.Ok? {
        owners := owners[out.value := called[|called| - 1]];
      }
    }

    /** A status read: the cached owner first, then, if it answers not-found, every endpoint. `first` is
        what endpoints answer to the first attempt, `later` to those of the scan. If all endpoints but
        the holder answer not-found, the holder answers, whatever the cache held. */
    method WithOwner<T>(id: string, first: nat -> Reply<T>, later: nat -> Reply<T>)
      returns (answer: Option<nat>, out: Reply<T>)
      requires Valid()
      modifies this`owners
      ensures Valid()
      ensures forall h: nat | OnlyHolder(supports, first, later, h) :: answer == Some(h)
      ensures var asked := id in old(owners) && !Missing(first(old(owners)[id]));
              && answer == (if asked then Some(old(owners)[id]) else Ask(supports, later, 0))
              && (answer.Some? ==> out == if asked then first(answer.value) else later(answer.value))
              && (answer.None? ==> out.Err?)
              && owners == (if asked then old(owners)
                            else if answer.Some? && out.Ok? then old(owners)[id := answer.value]
                                    else old(owners) - {id})
    {
      forall h: nat | OnlyHolder(supports, first, later, h) ensures Ask(supports, later, 0) == Some(h) {
        AskFindsHolder(supports, first, later, h);
      }
      if id in owners && supports[owners[id]] {
        var reply := first(owners[id]);
        if reply.Ok? || !IsNotFound(reply.error) {
          forall h: nat | OnlyHolder(supports, first, later, h) ensures h == owners[id] {
            HolderIs(supports, first, later, h, owners[id]);
          }
          return Some(owners[id]), reply;
        }
        owners := owners - {id};
      }
      answer, out := None, Err(Sdk(0, "", false, false));
      var k := 0;
      while k < |supports|
        invariant k <= |supports| && answer.None? && out.Err? && owners == old(owners) - {id}
        invariant Ask(supports, later, 0) == Ask(supports, later, k)
      {
        if supports[k] {
          var reply := later(k);
          if reply.Ok? {
            owners := owners[id := k];
            return Some(k), reply;
          }
          if !IsNotFound(reply.error) {
            return Some(k), reply;
          }
          out := reply;
        }
        k := k + 1;
      }
    }

    /** A delete is routed like a read, and drops the cached owner when it succeeds. */
    method DeleteStatusSubscription(id: string, first: nat -> Reply<()>, later: nat -> Reply<()>)
      returns (answer: Option<nat>, out: Reply<()>)
      requires Valid()
      modifies this`owners
      ensures Valid()
      ensures forall h: nat | OnlyHolder(supports, first, later, h) :: answer == Some(h)
      ensures if answer.None? then out.Err? else out == first(answer.value) || out == later(answer.value)
      ensures out.Ok? ==> id !in owners
      ensures owners - {id} == old(owners) - {id}
    {
      answer, out := WithOwner(id, first, later);
      if out.Ok? {
        owners := owners - {id};
      }
    }

    /** A refresh subscription asks the cached owner and nobody else; only without one does it go round.
        If all endpoints but the holder answer not-found, it reaches the holder if and only if the cache
        holds nobody or the holder: a stale owner is not replaced, unlike in reads and deletes. */
    method SubscribeStatusRefresh<T>(id: string, reply: nat -> Reply<T>) returns (answer: Option<nat>, out: Reply<T>)
      requires Valid()
      modifies this`owners
      ensures Valid()
      ensures answer == if id in old(owners) then Some(old(owners)[id]) else Ask(supports, reply, 0)
      ensures forall h: nat | OnlyHolder(supports, reply, reply, h) ::
                answer == Some(h) <==> id !in old(owners) || old(owners)[id] == h
      ensures answer.Some? ==> out == reply(answer.value)
      ensures answer.None? ==> out.Err?
      ensures owners == if id !in old(owners) && answer.Some? && out.Ok? then old(owners)[id := answer.value]
              else old(owners)
    {
      forall h: nat | OnlyHolder(supports, reply, reply, h) ensures Ask(supports, reply, 0) == Some(h) {
        AskFindsHolder(supports, reply, reply, h);
      }
      if id in owners && supports[owners[id]] {
        return Some(owners[id]), reply(owners[id]);
      }
      var k := 0;
      while k < |supports|
        invariant k <= |supports| && owners == old(owners)
        invariant Ask(supports, reply, 0) == Ask(supports, reply, k)
      {
        if supports[k] {
          var r := reply(k);
          if r.Ok? {
            owners := owners[id := k];
            return Some(k), r;
          }
          if !IsNotFound(r.error) {
            return Some(k), r;
          }
        }
        k := k + 1;
      }
      answer, out := None, Err(Sdk(0, "", false, false));
    }
  }
}
