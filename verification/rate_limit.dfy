/**
 * The HTTP rate-limiting middleware (`httpRateLimit`): a fixed-window counter
 * per client address. A request inside the budget passes with the
 * `X-RateLimit-*` headers; one over it is answered 429 with a retry hint.
 */
module RateLimit {
  import opened Wrappers

  /** One client's window: the requests let through since `windowStart`. */
  datatype Bucket = Bucket(count: nat, windowStart: int)

  /** One middleware built by `httpRateLimit(maxRequests, windowMs)`: its budget and window. */
  datatype Limiter = Limiter(maxRequests: nat, windowMs: nat)

  /**
   * The module-level bucket map, keyed by client. Every middleware the module
   * builds reads and writes this one map, so limiters sharing a client share
   * its count.
   */
  type Store = map<string, Bucket>

  /** The parts of an HTTP request the middleware reads. */
  datatype ClientAddress = ClientAddress(ip: Option<string>, remoteAddress: Option<string>)

  /**
   * `Pass` sets `X-RateLimit-Limit`, `-Remaining` and `-Reset` and calls the
   * next handler; `Reject` is the status and JSON body `{error, retryAfter}`.
   */
  datatype Response =
    | Pass(limit: nat, remaining: nat, reset: int)
    | Reject(status: nat, error: string, retryAfter: int)

  datatype Handled = Handled(store: Store, response: Response)

  const UNKNOWN_CLIENT: string := "unknown"
  const TOO_MANY_REQUESTS: nat := 429
  const TOO_MANY_MESSAGE: string := "Too many requests"

  /** The bucket map when the module is loaded. */
  function EmptyStore(): Store {
    map[]
  }

  /** The client key: the request's IP, else the socket's remote address, else a fixed placeholder. */
  function ClientKey(a: ClientAddress): (k: string)
    ensures a.ip.Some? ==> k == a.ip.value
    ensures a.ip.None? && a.remoteAddress.Some? ==> k == a.remoteAddress.value
    ensures a.ip.None? && a.remoteAddress.None? ==> k == UNKNOWN_CLIENT
  {
    if a.ip.Some? then a.ip.value else a.remoteAddress.GetOr(UNKNOWN_CLIENT)
  }

  /** A window has run out once `windowMs` has elapsed since it began. */
  predicate Expired(b: Bucket, windowMs: nat, now: int) {
    now - b.windowStart >= windowMs
  }

  /** The bucket in force for `key` at `now` under `l`'s window: created lazily, and restarted when expired. */
  function CurrentBucket(l: Limiter, store: Store, key: string, now: int): (b: Bucket)
    ensures key !in store || Expired(store[key], l.windowMs, now) ==> b == Bucket(0, now)
    ensures key in store && !Expired(store[key], l.windowMs, now) ==> b == store[key]
    ensures now - b.windowStart < l.windowMs || b == Bucket(0, now)
  {
    if key !in store || Expired(store[key], l.windowMs, now) then Bucket(0, now)
    else store[key]
  }

  /** No bucket has let through more than `maxRequests`. */
  predicate Bounded(store: Store, maxRequests: nat) {
    forall k :: k in store ==> store[k].count <= maxRequests
  }

  /**
   * The middleware `l` on one request: below the budget the client's bucket
   * counts it and the request passes with the remaining budget; at the budget
   * it is rejected before counting, with the time left in the window.
   */
  function Handle(l: Limiter, store: Store, a: ClientAddress, now: int): (r: Handled)
    ensures var b := CurrentBucket(l, store, ClientKey(a), now);
      && (r.response.Pass? <==> b.count < l.maxRequests)
      && (r.response.Pass? ==>
            && r.response == Pass(l.maxRequests, l.maxRequests - (b.count + 1), b.windowStart + l.windowMs)
            && r.store == store[ClientKey(a) := b.(count := b.count + 1)])
      && (r.response.Reject? ==>
            && r.response.status == TOO_MANY_REQUESTS
            && r.response.error == TOO_MANY_MESSAGE
            && r.response.retryAfter == b.windowStart + l.windowMs - now
            && (l.windowMs > 0 ==> r.response.retryAfter > 0)
            && r.store == store[ClientKey(a) := b])
    ensures forall k :: k != ClientKey(a) ==> (k in r.store <==> k in store)
    ensures forall k :: k != ClientKey(a) && k in store ==> r.store[k] == store[k]
    ensures Bounded(store, l.maxRequests) ==> Bounded(r.store, l.maxRequests)
  {
    var key := ClientKey(a);
    var b := CurrentBucket(l, store, key, now);
    if b.count < l.maxRequests then
      var b' := b.(count := b.count + 1);
      Handled(store[key := b'], Pass(l.maxRequests, l.maxRequests - b'.count, b.windowStart + l.windowMs))
    else
      Handled(store[key := b], Reject(TOO_MANY_REQUESTS, TOO_MANY_MESSAGE, b.windowStart + l.windowMs - now))
  }

  /**
   * One sweep of `startCleanupInterval`: drops every bucket at least
   * `windowMs` old and keeps the others as they are.
   */
  function Sweep(store: Store, windowMs: nat, now: int): (r: Store)
    ensures forall k :: k in r <==> k in store && !Expired(store[k], windowMs, now)
    ensures forall k :: k in r ==> r[k] == store[k]
    ensures forall m: nat :: Bounded(store, m) ==> Bounded(r, m)
  {
    map k | k in store && !Expired(store[k], windowMs, now) :: store[k]
  }

  /**
   * Sweeping never changes an answer: a request after a sweep, by a limiter
   * whose window is no longer than the sweep's, is treated exactly as it
   * would have been without it, since an expired bucket is restarted the
   * same way a missing one is created.
   */
  lemma SweepIsTransparent(l: Limiter, store: Store, sweepWindowMs: nat, a: ClientAddress, sweptAt: int, now: int)
    requires sweptAt <= now
    requires l.windowMs <= sweepWindowMs
    ensures Handle(l, Sweep(store, sweepWindowMs, sweptAt), a, now).response == Handle(l, store, a, now).response
    ensures var key := ClientKey(a);
      key in Handle(l, store, a, now).store &&
      Handle(l, Sweep(store, sweepWindowMs, sweptAt), a, now).store[key] == Handle(l, store, a, now).store[key]
  {
    var key := ClientKey(a);
    assert CurrentBucket(l, Sweep(store, sweepWindowMs, sweptAt), key, now) == CurrentBucket(l, store, key, now);
  }

  // ---------------------------------------------------------------------
  // A run of requests from one client
  // ---------------------------------------------------------------------

  /** The number of requests `l` lets through when the client sends at the given times. */
  function Passes(l: Limiter, store: Store, a: ClientAddress, times: seq<int>): nat
    decreases |times|
  {
    if |times| == 0 then 0
    else
      var h := Handle(l, store, a, times[0]);
      (if h.response.Pass? then 1 else 0) + Passes(l, h.store, a, times[1..])
  }

  /**
   * Within one window at most `maxRequests` requests pass: once a window is
   * open at `start`, requests before `start + windowMs` add to its count
   * until the budget is spent.
   */
  lemma {:induction false} WindowBound(l: Limiter, store: Store, a: ClientAddress, times: seq<int>, start: int)
    requires ClientKey(a) in store
    requires store[ClientKey(a)].windowStart == start
    requires store[ClientKey(a)].count <= l.maxRequests
    requires forall i :: 0 <= i < |times| ==> start <= times[i] < start + l.windowMs
    ensures store[ClientKey(a)].count + Passes(l, store, a, times) <= l.maxRequests
    decreases |times|
  {
    if |times| > 0 {
      var h := Handle(l, store, a, times[0]);
      assert CurrentBucket(l, store, ClientKey(a), times[0]) == store[ClientKey(a)];
      WindowBound(l, h.store, a, times[1..], start);
    }
  }

  /** A client new to the store gets at most `maxRequests` through `l` in its first window. */
  lemma FirstWindowBound(l: Limiter, store: Store, a: ClientAddress, times: seq<int>)
    requires ClientKey(a) !in store
    requires |times| > 0
    requires forall i :: 0 <= i < |times| ==> times[0] <= times[i] < times[0] + l.windowMs
    ensures Passes(l, store, a, times) <= l.maxRequests
  {
    var h := Handle(l, store, a, times[0]);
    WindowBound(l, h.store, a, times[1..], times[0]);
  }

  /** With a budget of 2 per minute, the first two requests pass with 1 and 0 left; the third gets 429. */
  lemma TwoPerMinute(a: ClientAddress, now: int)
    ensures
      var l := Limiter(2, 60000);
      var h1 := Handle(l, EmptyStore(), a, now);
      var h2 := Handle(l, h1.store, a, now);
      var h3 := Handle(l, h2.store, a, now);
      && h1.response == Pass(2, 1, now + 60000)
      && h2.response == Pass(2, 0, now + 60000)
      && h3.response == Reject(429, "Too many requests", 60000)
  {
  }

  /**
   * Two middlewares share the bucket map: a request let through by a
   * generous limiter uses up budget of a strict one for the same client.
   */
  lemma SharedBuckets(a: ClientAddress, now: int)
    ensures
      var strict := Limiter(2, 60000);
      var generous := Limiter(100, 60000);
      var h1 := Handle(generous, EmptyStore(), a, now);
      var h2 := Handle(strict, h1.store, a, now);
      var h3 := Handle(strict, h2.store, a, now);
      && h1.response == Pass(100, 99, now + 60000)
      && h2.response == Pass(2, 0, now + 60000)
      && h3.response.Reject?
  {
  }
}
