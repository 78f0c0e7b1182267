/**
 * The fixed-window rate limiter: every request bumps a counter kept under
 * `rate_limit:<identity>`; the counter lives for one window from its first
 * request, and a request is refused with 429 once the counter exceeds the
 * limit. Counters live in a process-wide table (the Redis branch is tried
 * first, but as shipped the client helper cannot serve it, so the table is
 * the store in use). Any error outside the counting lets the request through.
 */
module RateLimiter {
  import opened Wrappers
  import opened Json
  import opened Http
  import RedisStore

  const DefaultWindowMs := 60 * 1000
  const DefaultMax := 30
  const DefaultMessage := "Too many requests, please try again later."
  const KeyPrefix := "rate_limit:"

  /** How a key generator identifies a request; `None` stands for a generator that throws. */
  type KeyGenerator = Request -> Option<string>

  /** The options passed to `redisRateLimiter`; `None` is an option left undefined. */
  datatype Options = Options(windowMs: Option<int>, max: Option<int>, message: Option<string>,
                             keyGenerator: Option<KeyGenerator>)

  datatype Config = Config(windowMs: int, max: int, message: string, keyGenerator: KeyGenerator)

  /**
   * Destructuring with defaults: every undefined option takes its default; a
   * supplied key generator is used as given, the default identity is the client address.
   */
  function Configure(o: Options): (c: Config)
    ensures c.windowMs == o.windowMs.GetOr(DefaultWindowMs)
    ensures c.max == o.max.GetOr(DefaultMax)
    ensures c.message == o.message.GetOr(DefaultMessage)
    ensures o.keyGenerator.Some? ==> c.keyGenerator == o.keyGenerator.value
    ensures o.keyGenerator.None? ==> forall req :: c.keyGenerator(req) == Some(req.ip)
  {
    Config(o.windowMs.GetOr(DefaultWindowMs), o.max.GetOr(DefaultMax), o.message.GetOr(DefaultMessage),
           o.keyGenerator.GetOr((req: Request) => Some(req.ip)))
  }

  /** The two limiters of the chapter routes (environment overrides not set). */
  function GeneralLimiter(): Config {
    Configure(Options(Some(60000), Some(30), None, None))
  }

  function UploadLimiter(): Config {
    Configure(Options(Some(900000), Some(5), None, None))
  }

  /** The counter key: the identity behind a fixed namespace. */
  function CounterKey(identity: string): (k: string)
    ensures |k| == |KeyPrefix| + |identity| && k[..|KeyPrefix|] == KeyPrefix && k[|KeyPrefix|..] == identity
  {
    KeyPrefix + identity
  }

  /** Distinct identities never share a counter. */
  lemma CounterKeyInjective(a: string, b: string)
    requires CounterKey(a) == CounterKey(b)
    ensures a == b
  {
    assert a == CounterKey(a)[|KeyPrefix|..];
  }

  /** `Math.floor(windowMs / 1000)`; Dafny's division rounds down for a positive divisor. */
  function WindowSeconds(c: Config): int {
    c.windowMs / 1000
  }

  // ---------------------------------------------------------------------------
  // The in-memory table

  /** A counter and the instant (ms) its window ends. */
  datatype Record = Record(count: int, expiry: int)

  type Table = map<string, Record>

  /**
   * One request on the table: a record whose window is still open (now before
   * its expiry) is bumped and keeps its expiry; an absent or lapsed record is
   * replaced by a count of 1 with a fresh window. No other record changes.
   */
  function Bump(m: Table, key: string, now: int, windowMs: int): (r: Table)
    ensures r.Keys == m.Keys + {key}
    ensures key in m && now < m[key].expiry ==> r[key] == Record(m[key].count + 1, m[key].expiry)
    ensures !(key in m && now < m[key].expiry) ==> r[key] == Record(1, now + windowMs)
    ensures forall k :: k in m && k != key ==> r[k] == m[k]
  {
    if key in m && now < m[key].expiry then m[key := Record(m[key].count + 1, m[key].expiry)]
    else m[key := Record(1, now + windowMs)]
  }

  /** The sweep keeps exactly the records whose expiry has not been passed. */
  function Swept(m: Table, now: int): (r: Table)
    ensures forall k :: k in r <==> k in m && !(now > m[k].expiry)
    ensures forall k :: k in r ==> r[k] == m[k]
  {
    map k | k in m && !(now > m[k].expiry) :: m[k]
  }

  /**
   * A record whose expiry is exactly `now` survives the sweep at `now`, yet the
   * request at `now` already finds its window lapsed and starts a new one.
   */
  lemma SweepBoundary(m: Table, key: string, now: int, windowMs: int)
    requires key in m && m[key].expiry == now
    ensures key in Swept(m, now)
    ensures Bump(m, key, now, windowMs)[key] == Record(1, now + windowMs)
  {
  }

  /** Sweeping never changes what a later request counts. */
  lemma SweepInvisible(m: Table, sweptAt: int, key: string, now: int, windowMs: int)
    requires sweptAt <= now
    ensures Bump(Swept(m, sweptAt), key, now, windowMs)[key] == Bump(m, key, now, windowMs)[key]
  {
  }

  /** The module-level `memoryStore`, shared by every limiter of the process. */
  class MemoryStore {
    var records: Table

    constructor ()
      ensures records == map[]
    {
      records := map[];
    }

    /** The fallback branch: bump the counter of `key` and answer its new count. */
    method Hit(key: string, now: int, windowMs: int) returns (count: int)
      modifies this
      ensures records == Bump(old(records), key, now, windowMs)
      ensures count == records[key].count
    {
      var stored := if key in records then Some(records[key]) else None;
      if stored.Some? && now < stored.value.expiry {
        count := stored.value.count + 1;
        records := records[key := Record(count, stored.value.expiry)];
      } else {
        count := 1;
        records := records[key := Record(count, now + windowMs)];
      }
    }

    /** `cleanupMemoryStore`: delete, while walking the table, every record whose expiry has passed. */
    method Cleanup(now: int)
      modifies this
      ensures records == Swept(old(records), now)
    {
      var pending := records.Keys;
      while pending != {}
        invariant pending <= old(records).Keys
        invariant forall k :: k in records <==> k in old(records) && (k in pending || !(now > old(records)[k].expiry))
        invariant forall k :: k in records ==> records[k] == old(records)[k]
        decreases |pending|
      {
        var k :| k in pending;
        if now > records[k].expiry {
          records := records - {k};
        }
        pending := pending - {k};
      }
    }
  }

  // ---------------------------------------------------------------------------
  // Headers and the decision

  datatype Headers = Headers(limit: int, remaining: int, reset: int)

  datatype Verdict = Admit | Deny(status: int, body: Json)

  /** What the handler does to the response: the headers it sets (if any) and whether it calls `next()`. */
  datatype Outcome = Outcome(headers: Option<Headers>, verdict: Verdict)

  /** The outer catch: no headers, and the request proceeds. */
  const FailOpen := Outcome(None, Admit)

  function DenyBody(c: Config): Json {
    JObj([Field("error", JStr("Too many requests")), Field("message", JStr(c.message)),
          Field("retryAfter", JNum(WindowSeconds(c)))])
  }

  /**
   * The headers and the verdict for the request that brought the counter to
   * `count`: the limit, the requests left (never below zero), the end of a
   * full window counted from now in whole seconds, and a 429 exactly when the
   * counter is past the limit. `retryAfter` is always the full window.
   */
  function Decide(c: Config, count: int, now: int): (o: Outcome)
    ensures o.headers.Some?
    ensures o.headers.value.limit == c.max
    ensures o.headers.value.remaining >= 0
    ensures o.headers.value.remaining == if c.max - count > 0 then c.max - count else 0
    ensures o.headers.value.reset == now / 1000 + c.windowMs / 1000
    ensures o.verdict.Deny? <==> count > c.max
    ensures o.verdict.Deny? ==> o.verdict == Deny(429, DenyBody(c))
  {
    var remaining := if c.max - count > 0 then c.max - count else 0;
    var headers := Headers(c.max, remaining, now / 1000 + WindowSeconds(c));
    if count > c.max then Outcome(Some(headers), Deny(429, DenyBody(c)))
    else Outcome(Some(headers), Admit)
  }

  // ---------------------------------------------------------------------------
  // The Redis branch

  /** The state of the Redis store after the branch, and the count if the branch succeeded. */
  datatype Attempt = Attempt(db: RedisStore.Db, count: Option<int>)

  /**
   * INCR the key, then EXPIRE it for the window when the count is 1. A client
   * that is not connected, or a failing INCR, gives no count (the memory table
   * takes over); what INCR already wrote stays.
   */
  function RedisAttempt(connected: bool, db: RedisStore.Db, key: string, windowSeconds: int, now: int): (a: Attempt)
    ensures !connected ==> a == Attempt(db, None)
    ensures a.count.Some? ==> RedisStore.IncrCmd(db, key, now).Ok? && a.count.value == RedisStore.IncrCmd(db, key, now).value.1
    ensures connected && RedisStore.IncrCmd(db, key, now).Err? ==> a == Attempt(db, None)
    ensures connected && RedisStore.IncrCmd(db, key, now).Ok? ==>
              var (d, n) := RedisStore.IncrCmd(db, key, now).value;
              a.count == Some(n) && a.db == if n == 1 then RedisStore.ExpireCmd(d, key, windowSeconds, now).0 else d
  {
    if !connected then Attempt(db, None)
    else match RedisStore.IncrCmd(db, key, now)
      case Err(_) => Attempt(db, None)
      case Ok((d, n)) =>
        if n == 1 then Attempt(RedisStore.ExpireCmd(d, key, windowSeconds, now).0, Some(1))
        else Attempt(d, Some(n))
  }

  /** EXPIRE is issued only for the first request: later counts leave the key's expiry alone. */
  lemma ExpireOnlyOnFirst(db: RedisStore.Db, key: string, windowSeconds: int, now: int)
    requires RedisAttempt(true, db, key, windowSeconds, now).count.Some?
    ensures var a := RedisAttempt(true, db, key, windowSeconds, now);
            a.count.value != 1 ==> key in db && key in a.db && a.db[key].expiresAt == db[key].expiresAt
    ensures var a := RedisAttempt(true, db, key, windowSeconds, now);
            a.count.value == 1 && windowSeconds > 0 ==>
              key in a.db && a.db[key] == RedisStore.Entry("1", Some(now + windowSeconds * 1000))
  {
  }

  /**
   * With a window shorter than a second, EXPIRE 0 deletes the fresh counter at
   * once: the request counts 1 and leaves the key absent, so the next request,
   * at any later time, counts 1 again; with a positive limit neither is refused.
   */
  lemma RedisSubSecondWindow(c: Config, db: RedisStore.Db, key: string, now: int, later: int)
    requires RedisStore.Lookup(db, key, now).None?
    requires c.max >= 1
    ensures RedisAttempt(true, db, key, 0, now) == Attempt(db - {key}, Some(1))
    ensures RedisAttempt(true, db - {key}, key, 0, later) == Attempt(db - {key}, Some(1))
    ensures Decide(c, 1, now).verdict.Admit? && Decide(c, 1, later).verdict.Admit?
  {
    var d := db[key := RedisStore.Entry("1", None)];
    assert d - {key} == db - {key};
    var e := db - {key};
    var d' := e[key := RedisStore.Entry("1", None)];
    assert d' - {key} == e;
  }

  // ---------------------------------------------------------------------------
  // The handler

  /**
   * The handler `redisRateLimiter(options)` returns, for one request at time `now`.
   * `redis` is the client behind the helper; `null` is the helper as shipped,
   * which has no `isConnected`, `incr` or `expire`, so the attempt always throws
   * and the memory table is used.
   */
  method Handle(c: Config, memory: MemoryStore, redis: RedisStore.Store?, req: Request, now: int)
    returns (o: Outcome)
    modifies memory, redis
    ensures redis != null ==> redis.connected == old(redis.connected)
    ensures c.keyGenerator(req).None? ==>
              o == FailOpen && memory.records == old(memory.records) && (redis != null ==> redis.db == old(redis.db))
    ensures c.keyGenerator(req).Some? ==>
              var key := CounterKey(c.keyGenerator(req).value);
              var a := if redis == null then Attempt(map[], None)
                       else RedisAttempt(old(redis.connected), old(redis.db), key, WindowSeconds(c), now);
              (redis != null ==> redis.db == a.db) &&
              (a.count.Some? ==> memory.records == old(memory.records) && o == Decide(c, a.count.value, now)) &&
              (a.count.None? ==> memory.records == Bump(old(memory.records), key, now, c.windowMs) &&
                                 o == Decide(c, memory.records[key].count, now))
  {
    var identity := c.keyGenerator(req);
    if identity.None? {
      return FailOpen;
    }
    var key := CounterKey(identity.value);
    var windowSeconds := WindowSeconds(c);
    var currentCount := 0;
    var counted := false;
    if redis != null && redis.connected {
      var n := redis.Incr(key, now);
      if n.Ok? {
        if n.value == 1 {
          var _ := redis.Expire(key, windowSeconds, now);
        }
        currentCount := n.value;
        counted := true;
      }
    }
    if !counted {
      currentCount := memory.Hit(key, now, c.windowMs);
    }
    o := Decide(c, currentCount, now);
  }

  // ---------------------------------------------------------------------------
  // Windows of requests

  /** The counts a series of requests for one key sees, and the table afterwards. */
  function Replay(m: Table, key: string, times: seq<int>, windowMs: int): (r: (Table, seq<int>))
    ensures |r.1| == |times|
    decreases |times|
  {
    if times == [] then (m, [])
    else
      var m1 := Bump(m, key, times[0], windowMs);
      var rest := Replay(m1, key, times[1..], windowMs);
      (rest.0, [m1[key].count] + rest.1)
  }

  predicate Sorted(times: seq<int>) {
    forall i, j :: 0 <= i < j < |times| ==> times[i] <= times[j]
  }

  /** Requests that all fall inside an open window keep counting up from its record. */
  lemma {:induction false} ReplayOpenWindow(m: Table, key: string, times: seq<int>, windowMs: int)
    requires key in m
    requires forall i :: 0 <= i < |times| ==> times[i] < m[key].expiry
    ensures var (m', counts) := Replay(m, key, times, windowMs);
            key in m' && m'[key] == Record(m[key].count + |times|, m[key].expiry) &&
            forall i :: 0 <= i < |times| ==> counts[i] == m[key].count + i + 1
    decreases |times|
  {
    if times != [] {
      var m1 := Bump(m, key, times[0], windowMs);
      ReplayOpenWindow(m1, key, times[1..], windowMs);
    }
  }

  /**
   * A window opened on a fresh or lapsed counter: the i-th request of the
   * window (from 0) counts i + 1, so exactly the first `max` requests are
   * admitted and every later one in the window is refused.
   */
  lemma WindowQuota(c: Config, m: Table, key: string, times: seq<int>)
    requires times != [] && Sorted(times)
    requires !(key in m && times[0] < m[key].expiry)
    requires c.windowMs > 0 && times[|times| - 1] < times[0] + c.windowMs
    ensures var counts := Replay(m, key, times, c.windowMs).1;
            forall i :: 0 <= i < |times| ==>
              counts[i] == i + 1 &&
              (Decide(c, counts[i], times[i]).verdict.Admit? <==> i < c.max)
  {
    var m1 := Bump(m, key, times[0], c.windowMs);
    assert m1[key] == Record(1, times[0] + c.windowMs);
    forall i | 0 <= i < |times[1..]| ensures times[1..][i] < m1[key].expiry {
      assert times[1..][i] == times[i + 1] <= times[|times| - 1];
    }
    ReplayOpenWindow(m1, key, times[1..], c.windowMs);
  }

  /**
   * With the general limit, the 31st request of a minute is refused and told
   * to retry after the full 60 seconds.
   */
  lemma GeneralLimiterThirtyFirst(m: Table, key: string, t0: int)
    requires key !in m
    ensures var times := seq(31, i => t0 + i);
            var counts := Replay(m, key, times, 60000).1;
            counts[30] == 31 &&
            Decide(GeneralLimiter(), counts[29], times[29]).verdict.Admit? &&
            Decide(GeneralLimiter(), counts[30], times[30]) ==
              Outcome(Some(Headers(30, 0, (t0 + 30) / 1000 + 60)), Deny(429, DenyBody(GeneralLimiter())))
  {
    var times := seq(31, i => t0 + i);
    WindowQuota(GeneralLimiter(), m, key, times);
  }

  /**
   * Both limiters of the chapter routes write the same table under the same
   * key, so a GET after an upload is that key's second request and inherits
   * the upload's 15-minute window.
   */
  lemma LimitersShareCounter(m: Table, req: Request, t1: int, t2: int)
    requires t1 <= t2 < t1 + 900000
    requires var key := CounterKey(req.ip); key !in m
    ensures var u := UploadLimiter();
            var g := GeneralLimiter();
            var key := CounterKey(g.keyGenerator(req).value);
            key == CounterKey(u.keyGenerator(req).value) &&
            Bump(Bump(m, key, t1, u.windowMs), key, t2, g.windowMs)[key] == Record(2, t1 + 900000)
  {
  }
}
