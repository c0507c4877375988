/** The module-level model cache of `loadATVModel`: `cachedATVModel` holds the
    normalised model once a load has succeeded, and `modelLoadingPromise` holds
    the promise of the one load that was started. A request returns a clone of
    the cached model, or waits on the promise, or starts the load.

    The file fetch, the OBJ parse and the bounding-box normalisation are outside
    the model: a load is an event that settles with an asset or an error. */
module Loader {
  import opened Wrappers

  /** The normalised base model, as an opaque value. */
  datatype Asset = Asset(tag: nat)

  datatype LoadError = LoadError(reason: string)

  /** The state of `modelLoadingPromise` once it exists. */
  datatype Promise = InFlight | Fulfilled(asset: Asset) | Rejected(error: LoadError)

  /** The two module-level variables, plus bookkeeping the source does not keep:
      how many callers are waiting on the in-flight promise, and how many loads
      were started so far. */
  datatype Cache = Cache(cached: Option<Asset>, pending: Option<Promise>, waiters: nat, loadsStarted: nat)

  /** What a caller receives. Callers that wait are answered when the load settles. */
  datatype Reply = Clone(of: Asset) | Failed(error: LoadError)

  /** How a failed load is recorded. The source keeps the rejected promise;
      `ClearPending` is the corrected policy that lets the next request retry. */
  datatype FailurePolicy = KeepRejected | ClearPending

  datatype Event = Request | LoadSucceeded(asset: Asset) | LoadFailed(error: LoadError)

  /** The state of a fresh page: nothing cached, nothing pending. */
  const empty := Cache(None, None, 0, 0)

  /** The result of one event: the new state and the replies handed out by it. */
  datatype Step = Step(cache: Cache, replies: seq<Reply>)

  /** One call of `loadATVModel`. */
  function Lookup(c: Cache): (r: Step)
    ensures c.cached.Some? ==> r == Step(c, [Clone(c.cached.value)])
    ensures c.cached.None? && c.pending == Some(InFlight) ==>
              r.cache == c.(waiters := c.waiters + 1) && r.replies == []
    ensures c.cached.None? && c.pending.Some? && c.pending.value.Rejected? ==>
              r == Step(c, [Failed(c.pending.value.error)])
    ensures c.cached.None? && c.pending.Some? && c.pending.value.Fulfilled? ==>
              r == Step(c, [Clone(c.pending.value.asset)])
    ensures c.cached.None? && c.pending.None? ==>
              r.cache.pending == Some(InFlight) && r.cache.loadsStarted == c.loadsStarted + 1 && r.replies == []
              && r.cache.waiters == 1
    ensures r.cache.loadsStarted == c.loadsStarted + (if c.cached.None? && c.pending.None? then 1 else 0)
    ensures r.cache.cached == c.cached
  {
    if c.cached.Some? then Step(c, [Clone(c.cached.value)])
    else if c.pending.Some? then
      match c.pending.value
      case InFlight => Step(c.(waiters := c.waiters + 1), [])
      case Fulfilled(a) => Step(c, [Clone(a)])
      case Rejected(e) => Step(c, [Failed(e)])
    else Step(Cache(None, Some(InFlight), 1, c.loadsStarted + 1), [])
  }

  /** `waiters` copies of one reply. */
  function Repeat(reply: Reply, n: nat): (r: seq<Reply>)
    ensures |r| == n
    ensures forall i :: 0 <= i < n ==> r[i] == reply
  {
    if n == 0 then [] else [reply] + Repeat(reply, n - 1)
  }

  /** The load callback: the cache is filled and every waiting caller gets a clone. */
  function Succeed(c: Cache, a: Asset): (r: Step)
    requires c.pending == Some(InFlight)
    ensures r.cache.cached == Some(a) && r.cache.pending == Some(Fulfilled(a))
    ensures r.cache.waiters == 0 && r.cache.loadsStarted == c.loadsStarted
    ensures |r.replies| == c.waiters && forall i :: 0 <= i < |r.replies| ==> r.replies[i] == Clone(a)
  {
    Step(Cache(Some(a), Some(Fulfilled(a)), 0, c.loadsStarted), Repeat(Clone(a), c.waiters))
  }

  /** The error callback: every waiting caller gets the error; the promise is
      kept (as written) or dropped (corrected). */
  function Fail(policy: FailurePolicy, c: Cache, e: LoadError): (r: Step)
    requires c.pending == Some(InFlight)
    ensures r.cache.cached == c.cached && r.cache.waiters == 0 && r.cache.loadsStarted == c.loadsStarted
    ensures policy == KeepRejected ==> r.cache.pending == Some(Rejected(e))
    ensures policy == ClearPending ==> r.cache.pending.None?
    ensures |r.replies| == c.waiters && forall i :: 0 <= i < |r.replies| ==> r.replies[i] == Failed(e)
  {
    var pending := if policy == KeepRejected then Some(Rejected(e)) else None;
    Step(c.(pending := pending, waiters := 0), Repeat(Failed(e), c.waiters))
  }

  /** One event. A settle event with no load in flight changes nothing. */
  function Apply(policy: FailurePolicy, c: Cache, e: Event): Step {
    match e
    case Request => Lookup(c)
    case LoadSucceeded(a) => if c.pending == Some(InFlight) then Succeed(c, a) else Step(c, [])
    case LoadFailed(err) => if c.pending == Some(InFlight) then Fail(policy, c, err) else Step(c, [])
  }

  /** A run of events, with the replies in the order they were handed out. */
  function Run(policy: FailurePolicy, c: Cache, events: seq<Event>): Step
    decreases |events|
  {
    if |events| == 0 then Step(c, [])
    else
      var first := Apply(policy, c, events[0]);
      var rest := Run(policy, first.cache, events[1..]);
      Step(rest.cache, first.replies + rest.replies)
  }

  function CountRequests(events: seq<Event>): nat {
    if |events| == 0 then 0 else (if events[0].Request? then 1 else 0) + CountRequests(events[1..])
  }

  function CountFailures(events: seq<Event>): nat {
    if |events| == 0 then 0 else (if events[0].LoadFailed? then 1 else 0) + CountFailures(events[1..])
  }

  /** What holds of every state the source's cache can reach: a cached model is
      also the value of the fulfilled promise, and only an in-flight promise has
      callers waiting on it. */
  predicate Consistent(c: Cache) {
    && (c.cached.Some? ==> c.pending == Some(Fulfilled(c.cached.value)))
    && (c.pending.Some? && c.pending.value.Fulfilled? ==> c.cached == Some(c.pending.value.asset))
    && (c.pending != Some(InFlight) ==> c.waiters == 0)
    && (c.pending == Some(InFlight) ==> c.cached.None?)
  }

  /** Under the source's policy: a load has been started exactly when a promise exists. */
  predicate AsWrittenInvariant(c: Cache) {
    Consistent(c) && (c.pending.Some? <==> c.loadsStarted == 1) && (c.pending.None? <==> c.loadsStarted == 0)
  }

  lemma ApplyKeepsAsWrittenInvariant(c: Cache, e: Event)
    requires AsWrittenInvariant(c)
    ensures AsWrittenInvariant(Apply(KeepRejected, c, e).cache)
  {
  }

  /** Whatever happens, the source starts at most one load per page lifetime:
      concurrent requests join the in-flight promise and later ones are
      answered from the cache or from the settled promise. */
  lemma {:induction false} AtMostOneLoadEver(c: Cache, events: seq<Event>)
    requires AsWrittenInvariant(c)
    ensures AsWrittenInvariant(Run(KeepRejected, c, events).cache)
    ensures Run(KeepRejected, c, events).cache.loadsStarted <= 1
    decreases |events|
  {
    if |events| > 0 {
      ApplyKeepsAsWrittenInvariant(c, events[0]);
      AtMostOneLoadEver(Apply(KeepRejected, c, events[0]).cache, events[1..]);
    }
  }

  /** Every request is answered once: immediately, or when the load settles.
      Those not yet answered are exactly the callers still waiting. */
  lemma {:induction false} EveryRequestAnswered(policy: FailurePolicy, c: Cache, events: seq<Event>)
    requires Consistent(c)
    ensures Consistent(Run(policy, c, events).cache)
    ensures |Run(policy, c, events).replies| + Run(policy, c, events).cache.waiters
            == c.waiters + CountRequests(events)
    decreases |events|
  {
    if |events| > 0 {
      var first := Apply(policy, c, events[0]);
      assert Consistent(first.cache);
      EveryRequestAnswered(policy, first.cache, events[1..]);
    }
  }

  /** Once the model is cached, requests never start a load and always get a
      clone of the cached model. */
  lemma {:induction false} CachedServesClones(policy: FailurePolicy, c: Cache, events: seq<Event>)
    requires Consistent(c) && c.cached.Some?
    ensures Run(policy, c, events).cache == c
    ensures forall i :: 0 <= i < |Run(policy, c, events).replies| ==>
              Run(policy, c, events).replies[i] == Clone(c.cached.value)
    decreases |events|
  {
    if |events| > 0 {
      var first := Apply(policy, c, events[0]);
      assert first.cache == c;
      CachedServesClones(policy, c, events[1..]);
    }
  }

  /** With the source's policy a failed load is never retried: the rejected
      promise stays in place, nothing is ever cached, no second load starts,
      and every later caller gets the same error. */
  lemma {:induction false} NoRetryAfterFailure(c: Cache, e: LoadError, events: seq<Event>)
    requires c.cached.None? && c.pending == Some(Rejected(e)) && c.waiters == 0
    ensures Run(KeepRejected, c, events).cache == c
    ensures forall i :: 0 <= i < |Run(KeepRejected, c, events).replies| ==>
              Run(KeepRejected, c, events).replies[i] == Failed(e)
    ensures |Run(KeepRejected, c, events).replies| == CountRequests(events)
    decreases |events|
  {
    if |events| > 0 {
      NoRetryAfterFailure(c, e, events[1..]);
    }
  }

  /** The concrete session: request, load fails, request again. The second
      request fails at once and no second load is started. */
  lemma FailureIsPermanent(e: LoadError)
    ensures Run(KeepRejected, empty, [Request, LoadFailed(e), Request]).replies == [Failed(e), Failed(e)]
    ensures Run(KeepRejected, empty, [Request, LoadFailed(e), Request]).cache.loadsStarted == 1
  {
    var evs := [Request, LoadFailed(e), Request];
    var s1 := Apply(KeepRejected, empty, Request);
    var s2 := Apply(KeepRejected, s1.cache, LoadFailed(e));
    var s3 := Apply(KeepRejected, s2.cache, Request);
    assert s1.replies == [] && s2.replies == [Failed(e)] && s3.replies == [Failed(e)];
    assert evs[1..] == [LoadFailed(e), Request] && evs[2..] == [Request];
    assert Run(KeepRejected, s3.cache, []) == Step(s3.cache, []);
    assert Run(KeepRejected, s2.cache, evs[2..]) == Step(s3.cache, s3.replies);
    assert Run(KeepRejected, s1.cache, evs[1..]) == Step(s3.cache, s2.replies + s3.replies);
  }

  /** With the corrected policy a failure leaves the cache empty, so the next
      request starts a new load. */
  lemma RetryAfterFailure(e: LoadError, a: Asset)
    ensures Run(ClearPending, empty, [Request, LoadFailed(e), Request]).cache.pending == Some(InFlight)
    ensures Run(ClearPending, empty, [Request, LoadFailed(e), Request]).cache.loadsStarted == 2
    ensures Run(ClearPending, empty, [Request, LoadFailed(e), Request, LoadSucceeded(a)]).replies
            == [Failed(e), Clone(a)]
  {
    var evs := [Request, LoadFailed(e), Request, LoadSucceeded(a)];
    var s1 := Apply(ClearPending, empty, Request);
    var s2 := Apply(ClearPending, s1.cache, LoadFailed(e));
    var s3 := Apply(ClearPending, s2.cache, Request);
    var s4 := Apply(ClearPending, s3.cache, LoadSucceeded(a));
    assert s1.replies == [] && s2.replies == [Failed(e)] && s3.replies == [] && s4.replies == [Clone(a)];
    assert s3.cache.pending == Some(InFlight) && s3.cache.loadsStarted == 2;
    var short := [Request, LoadFailed(e), Request];
    assert short[1..] == [LoadFailed(e), Request] && short[2..] == [Request];
    assert Run(ClearPending, s3.cache, []) == Step(s3.cache, []);
    assert Run(ClearPending, s2.cache, short[2..]) == Step(s3.cache, []);
    assert Run(ClearPending, s1.cache, short[1..]) == Step(s3.cache, [Failed(e)]);
    assert evs[1..] == [LoadFailed(e), Request, LoadSucceeded(a)];
    assert evs[1..][1..] == [Request, LoadSucceeded(a)] && evs[1..][1..][1..] == [LoadSucceeded(a)];
    assert Run(ClearPending, s4.cache, []) == Step(s4.cache, []);
    assert Run(ClearPending, s3.cache, evs[1..][1..][1..]) == Step(s4.cache, [Clone(a)]);
    assert Run(ClearPending, s2.cache, evs[1..][1..]) == Step(s4.cache, [Clone(a)]);
    assert Run(ClearPending, s1.cache, evs[1..]) == Step(s4.cache, [Failed(e), Clone(a)]);
  }

  /** Under the corrected policy: at most one load is in flight at a time (the
      promise slot holds one), and each load after the first is paid for by a
      failure of the previous one. */
  predicate RetryInvariant(c: Cache, failures: nat) {
    Consistent(c) && c.loadsStarted <= failures + (if c.pending.Some? then 1 else 0)
  }

  lemma {:induction false} LoadsBoundedByFailures(c: Cache, failures: nat, events: seq<Event>)
    requires RetryInvariant(c, failures)
    ensures RetryInvariant(Run(ClearPending, c, events).cache, failures + CountFailures(events))
    ensures Run(ClearPending, c, events).cache.loadsStarted <= failures + CountFailures(events) + 1
    decreases |events|
  {
    if |events| > 0 {
      var first := Apply(ClearPending, c, events[0]);
      var f' := failures + (if events[0].LoadFailed? then 1 else 0);
      assert RetryInvariant(first.cache, f');
      LoadsBoundedByFailures(first.cache, f', events[1..]);
    }
  }

  /** Concurrent requests under either policy: while a load is in flight, any
      number of further requests starts nothing and they all wait. */
  lemma {:induction false} ConcurrentRequestsJoin(policy: FailurePolicy, c: Cache, n: nat)
    requires c.cached.None? && c.pending == Some(InFlight)
    ensures Run(policy, c, seq(n, _ => Request)).cache == c.(waiters := c.waiters + n)
    ensures Run(policy, c, seq(n, _ => Request)).replies == []
    decreases n
  {
    if n > 0 {
      assert seq(n, _ => Request)[1..] == seq(n - 1, _ => Request);
      ConcurrentRequestsJoin(policy, c.(waiters := c.waiters + 1), n - 1);
    }
  }
}
