/** The fixed-window rate limiter: a table from identifier to the number of
    requests seen in the current window and the time the window ends. The
    clock is an explicit `now` argument (milliseconds), and the periodic
    sweep is the explicit method `Cleanup(now)`. */
module RateLimit {
  import opened Optional

  /** How often the process sweeps the table, in milliseconds. */
  const CleanupIntervalMs: int := 60 * 1000

  datatype Entry = Entry(count: int, resetTime: int)

  datatype Options = Options(maxRequests: int, windowMs: int)

  datatype RateLimitResult = RateLimitResult(
    success: bool,
    limit: int,
    remaining: int,
    reset: int,
    retryAfter: Option<int>)

  /** `Math.ceil(ms / 1000)`: whole seconds, rounded up. */
  function SecondsCeil(ms: int): (s: int)
    ensures 1000 * (s - 1) < ms <= 1000 * s
  {
    (ms + 999) / 1000
  }

  /** A window is over only once `now` is strictly past its reset time. */
  predicate Expired(e: Entry, now: int) {
    e.resetTime < now
  }

  datatype Outcome = Outcome(result: RateLimitResult, store: map<string, Entry>)

  /** One call of `rateLimit(identifier, options)` at time `now`: the
      answer and the table afterwards. */
  function Step(store: map<string, Entry>, id: string, opts: Options, now: int): Outcome {
    if id !in store || Expired(store[id], now) then
      var started := Entry(1, now + opts.windowMs);
      Outcome(RateLimitResult(true, opts.maxRequests, opts.maxRequests - 1, started.resetTime, None),
              store[id := started])
    else
      var e := store[id];
      if e.count >= opts.maxRequests then
        Outcome(RateLimitResult(false, opts.maxRequests, 0, e.resetTime, Some(SecondsCeil(e.resetTime - now))),
                store)
      else
        var bumped := e.(count := e.count + 1);
        Outcome(RateLimitResult(true, opts.maxRequests, opts.maxRequests - bumped.count, bumped.resetTime, None),
                store[id := bumped])
  }

  /** The sweep's effect: keep exactly the entries whose window has not
      expired at `now`. */
  function Sweep(store: map<string, Entry>, now: int): map<string, Entry> {
    map k | k in store && !Expired(store[k], now) :: store[k]
  }

  class RateLimiter {
    var store: map<string, Entry>

    constructor ()
      ensures store == map[]
    {
      store := map[];
    }

    /** `rateLimit(identifier, options)` at time `now`. */
    method RateLimit(identifier: string, options: Options, now: int) returns (r: RateLimitResult)
      modifies this
      ensures Outcome(r, store) == Step(old(store), identifier, options, now)
      ensures r.limit == options.maxRequests
      // no entry, or an expired one: a fresh window holding this request
      ensures (identifier !in old(store) || old(store)[identifier].resetTime < now) ==>
        r.success && r.remaining == options.maxRequests - 1 && r.reset == now + options.windowMs &&
        store == old(store)[identifier := Entry(1, now + options.windowMs)]
      // active window that is full: refused, table unchanged
      ensures (identifier in old(store) && now <= old(store)[identifier].resetTime &&
               old(store)[identifier].count >= options.maxRequests) ==>
        !r.success && r.remaining == 0 && r.reset == old(store)[identifier].resetTime &&
        r.retryAfter == Some(SecondsCeil(old(store)[identifier].resetTime - now)) &&
        store == old(store)
      // active window with room: counted
      ensures (identifier in old(store) && now <= old(store)[identifier].resetTime &&
               old(store)[identifier].count < options.maxRequests) ==>
        var e := old(store)[identifier];
        r.success && store == old(store)[identifier := Entry(e.count + 1, e.resetTime)] &&
        r.remaining == options.maxRequests - (e.count + 1) && r.reset == e.resetTime
      ensures forall k :: k != identifier ==> (k in store <==> k in old(store))
      ensures forall k :: k != identifier && k in store ==> store[k] == old(store)[k]
    {
      var entry := if identifier in store then Some(store[identifier]) else None;
      if entry.None? || entry.value.resetTime < now {
        var newEntry := Entry(1, now + options.windowMs);
        store := store[identifier := newEntry];
        return RateLimitResult(true, options.maxRequests, options.maxRequests - 1, newEntry.resetTime, None);
      }
      var e := entry.value;
      if e.count >= options.maxRequests {
        var retryAfter := SecondsCeil(e.resetTime - now);
        return RateLimitResult(false, options.maxRequests, 0, e.resetTime, Some(retryAfter));
      }
      e := e.(count := e.count + 1);
      store := store[identifier := e];
      return RateLimitResult(true, options.maxRequests, options.maxRequests - e.count, e.resetTime, None);
    }

    /** The periodic sweep: delete every entry whose window has expired. */
    method Cleanup(now: int)
      modifies this
      ensures store == Sweep(old(store), now)
    {
      var keys := store.Keys;
      while keys != {}
        invariant keys <= store.Keys
        invariant forall k :: k in store <==> k in old(store) && (k in keys || !Expired(old(store)[k], now))
        invariant forall k :: k in store ==> store[k] == old(store)[k]
        decreases keys
      {
        var k :| k in keys;
        if store[k].resetTime < now {
          store := store - {k};
        }
        keys := keys - {k};
      }
      assert store.Keys == Sweep(old(store), now).Keys;
    }
  }

  /** The number of successful calls among consecutive calls for `id` at
      the given times, and the table afterwards. */
  function Run(store: map<string, Entry>, id: string, opts: Options, times: seq<int>): (int, map<string, Entry>)
    decreases |times|
  {
    if times == [] then (0, store)
    else
      var o := Step(store, id, opts, times[0]);
      var (n, s) := Run(o.store, id, opts, times[1..]);
      ((if o.result.success then 1 else 0) + n, s)
  }

  function Min(a: int, b: int): int { if a <= b then a else b }
  function Max(a: int, b: int): int { if a >= b then a else b }

  /** Inside an active window that already holds `count` requests, exactly
      `maxRequests - count` further calls succeed (none if it is full). */
  lemma {:induction false} ActiveWindowRun(store: map<string, Entry>, id: string, opts: Options, times: seq<int>)
    requires id in store
    requires forall i :: 0 <= i < |times| ==> times[i] <= store[id].resetTime
    ensures Run(store, id, opts, times).0 == Min(|times|, Max(0, opts.maxRequests - store[id].count))
    decreases |times|
  {
    if times != [] {
      var o := Step(store, id, opts, times[0]);
      assert o.store[id].resetTime == store[id].resetTime;
      forall i | 0 <= i < |times[1..]| ensures times[1..][i] <= o.store[id].resetTime {
        assert times[1..][i] == times[i + 1];
      }
      ActiveWindowRun(o.store, id, opts, times[1..]);
    }
  }

  /** Calls that all fall inside the window started by the first of them:
      the first always succeeds, and `max(maxRequests, 1)` succeed in all
      (or every call, if there are fewer). */
  lemma WindowRun(store: map<string, Entry>, id: string, opts: Options, times: seq<int>)
    requires |times| >= 1
    requires id !in store || Expired(store[id], times[0])
    requires forall i :: 0 <= i < |times| ==> times[i] <= times[0] + opts.windowMs
    ensures Step(store, id, opts, times[0]).result.success
    ensures Run(store, id, opts, times).0 == Min(|times|, Max(opts.maxRequests, 1))
  {
    var o := Step(store, id, opts, times[0]);
    assert o.store[id] == Entry(1, times[0] + opts.windowMs);
    forall i | 0 <= i < |times[1..]| ensures times[1..][i] <= o.store[id].resetTime {
      assert times[1..][i] == times[i + 1];
    }
    ActiveWindowRun(o.store, id, opts, times[1..]);
  }

  /** The sweep cannot be observed: a call after a sweep that ran no later
      answers as it would have without the sweep, and leaves the same entry
      for its identifier. */
  lemma SweepUnobservable(store: map<string, Entry>, sweptAt: int, id: string, opts: Options, now: int)
    requires sweptAt <= now
    ensures Step(Sweep(store, sweptAt), id, opts, now).result == Step(store, id, opts, now).result
    ensures Step(Sweep(store, sweptAt), id, opts, now).store[id] == Step(store, id, opts, now).store[id]
  {
    if id in store && id !in Sweep(store, sweptAt) {
      assert Expired(store[id], now);
    }
  }
}
