/**
 * The GET response cache: a GET whose key holds a truthy cached body is
 * answered from the cache; otherwise the handler runs and the body it sends
 * is stored under the key for `duration` seconds. `clearCache(pattern)`
 * deletes the cached keys matching `cache:<pattern>`. Every store error
 * during lookup or clearing is swallowed.
 */
module Cache {
  import opened Wrappers
  import opened Json
  import JsonText
  import opened Http
  import opened RedisStore
  import RedisHelper
  import Glob

  const KeyPrefix := "cache:"

  /** `req.originalUrl || req.url`: an empty or missing original URL falls back to the router URL. */
  function RawUrl(req: Request): string {
    if req.originalUrl.Some? && req.originalUrl.value != "" then req.originalUrl.value else req.url
  }

  /** The cache key is the raw URL, taken verbatim, behind a fixed namespace. */
  function CacheKey(req: Request): (k: string)
    ensures |k| >= |KeyPrefix| && k[..|KeyPrefix|] == KeyPrefix && k[|KeyPrefix|..] == RawUrl(req)
  {
    KeyPrefix + RawUrl(req)
  }

  /** No normalisation: requests share an entry exactly when their raw URLs are equal. */
  lemma CacheKeyVerbatim(a: Request, b: Request)
    ensures CacheKey(a) == CacheKey(b) <==> RawUrl(a) == RawUrl(b)
  {
    if CacheKey(a) == CacheKey(b) {
      assert RawUrl(a) == CacheKey(a)[|KeyPrefix|..];
    }
  }

  /** The store after the fire-and-forget `setEx` of a sent body: unchanged when SETEX is refused. */
  function Stored(db: Db, key: string, duration: int, body: Json, now: int): Db {
    match SetExCmd(db, key, duration, JsonText.Stringify(body), now)
    case Ok(d) => d
    case Err(_) => db
  }

  /** What the lookup on entry gives: the decoded cached body, or the error `get` raises. */
  function Looked(connected: bool, db: Db, key: string, now: int): Result<Json, string> {
    if connected then RedisHelper.Decode(Lookup(db, key, now)) else Err(NotConnected)
  }

  /** One pass through the middleware: the reply sent, whether the handler ran, and the store afterwards. */
  datatype Pass = Pass(reply: Reply, handlerRan: bool, db: Db)

  /**
   * The middleware as a function of the store: non-GET requests go straight
   * to the handler; a truthy cached body is sent with status 200 without
   * running the handler; a failing lookup runs the handler and caches
   * nothing; otherwise the handler runs and its body is stored.
   */
  function Respond(connected: bool, db: Db, duration: int, req: Request, handler: Request -> Reply, now: int): Pass {
    if req.verb != "GET" then Pass(handler(req), true, db)
    else
      var key := CacheKey(req);
      match Looked(connected, db, key, now)
      case Err(_) => Pass(handler(req), true, db)
      case Ok(cached) =>
        if Truthy(cached) then Pass(Reply(DefaultStatus, cached), false, db)
        else Pass(handler(req), true, if connected then Stored(db, key, duration, handler(req).body, now) else db)
  }

  /**
   * `cacheMiddleware(duration)` followed by the route's handler. The handler is
   * a function from the request to the reply it sends through `res.json`.
   */
  method Handle(store: Store, duration: int, req: Request, handler: Request -> Reply, now: int)
    returns (reply: Reply, handlerRan: bool)
    modifies store
    ensures store.connected == old(store.connected)
    ensures Pass(reply, handlerRan, store.db) == Respond(old(store.connected), old(store.db), duration, req, handler, now)
  {
    if req.verb != "GET" {
      reply := handler(req);
      handlerRan := true;
      return;
    }
    var key := CacheKey(req);
    var cached := RedisHelper.Get(store, key, now);
    if cached.Err? {
      reply := handler(req);
      handlerRan := true;
      return;
    }
    if Truthy(cached.value) {
      reply := Reply(DefaultStatus, cached.value);
      handlerRan := false;
      return;
    }
    reply := handler(req);
    handlerRan := true;
    var _ := RedisHelper.SetEx(store, key, duration, reply.body, now);
  }

  /** Only GET takes part: any other request runs the handler and the store is neither read nor written. */
  lemma NonGetPassesThrough(connected: bool, db: Db, duration: int, req: Request, handler: Request -> Reply, now: int)
    requires req.verb != "GET"
    ensures Respond(connected, db, duration, req, handler, now) == Pass(handler(req), true, db)
  {
  }

  /** A lookup that fails (the client is down, or the stored text is not JSON) falls through to the handler. */
  lemma LookupErrorFallsThrough(connected: bool, db: Db, duration: int, req: Request, handler: Request -> Reply, now: int)
    requires req.verb == "GET" && Looked(connected, db, CacheKey(req), now).Err?
    ensures Respond(connected, db, duration, req, handler, now) == Pass(handler(req), true, db)
  {
  }

  /** What `setEx` stores, `get` gives back, equal to the sent body, until the time to live is over. */
  lemma StoredThenLooked(db: Db, key: string, duration: int, body: Json, now: int, later: int)
    requires WellFormed(body) && duration > 0 && now <= later <= now + duration * 1000
    ensures Looked(true, Stored(db, key, duration, body, now), key, later) == Ok(body)
  {
    SetExThenLookup(db, key, duration, JsonText.Stringify(body), now, later);
    RedisHelper.DecodeStringify(body);
  }

  /**
   * A miss stores the sent body; a second GET of the same URL within the time
   * to live is answered from the cache, with that body and status 200, and the
   * handler does not run again.
   */
  lemma MissThenHit(db: Db, duration: int, req: Request, handler: Request -> Reply, now: int, later: int)
    requires req.verb == "GET"
    requires Looked(true, db, CacheKey(req), now).Ok? && !Truthy(Looked(true, db, CacheKey(req), now).value)
    requires WellFormed(handler(req).body) && Truthy(handler(req).body)
    requires duration > 0 && now <= later <= now + duration * 1000
    ensures var first := Respond(true, db, duration, req, handler, now);
            first.reply == handler(req) && first.handlerRan &&
            Respond(true, first.db, duration, req, handler, later) == Pass(Reply(200, handler(req).body), false, first.db)
  {
    StoredThenLooked(db, CacheKey(req), duration, handler(req).body, now, later);
  }

  /** The replay keeps the body but not the status: a cached 404 comes back as a 200. */
  lemma ReplayDropsStatus(db: Db, duration: int, req: Request, handler: Request -> Reply, now: int, later: int)
    requires req.verb == "GET"
    requires Looked(true, db, CacheKey(req), now).Ok? && !Truthy(Looked(true, db, CacheKey(req), now).value)
    requires WellFormed(handler(req).body) && Truthy(handler(req).body)
    requires duration > 0 && now <= later <= now + duration * 1000
    requires handler(req).status != 200
    ensures var first := Respond(true, db, duration, req, handler, now);
            Respond(true, first.db, duration, req, handler, later).reply != first.reply
  {
    MissThenHit(db, duration, req, handler, now, later);
  }

  /** A falsy body (null, false, 0, "") is stored but never served: every request runs the handler. */
  lemma FalsyBodyNeverServed(db: Db, duration: int, req: Request, handler: Request -> Reply, now: int, later: int)
    requires req.verb == "GET"
    requires Looked(true, db, CacheKey(req), now).Ok? && !Truthy(Looked(true, db, CacheKey(req), now).value)
    requires WellFormed(handler(req).body) && !Truthy(handler(req).body)
    requires duration > 0 && now <= later <= now + duration * 1000
    ensures var first := Respond(true, db, duration, req, handler, now);
            Respond(true, first.db, duration, req, handler, later).handlerRan
  {
    StoredThenLooked(db, CacheKey(req), duration, handler(req).body, now, later);
  }

  // ---------------------------------------------------------------------------
  // Invalidation

  /** The store after deleting every live key the pattern matches. */
  function Cleared(db: Db, pattern: string, now: int): (r: Db)
    ensures forall k :: k in r ==> k in db && r[k] == db[k]
    ensures forall k :: k in db ==> (k in r <==> k !in KeysCmd(db, pattern, now))
  {
    map k | k in db && k !in KeysCmd(db, pattern, now) :: db[k]
  }

  /**
   * `clearCache(pattern)`: KEYS `cache:<pattern>`, then DEL each key found.
   * A store error ends it quietly and it returns normally.
   */
  method ClearCache(store: Store, pattern: string, now: int)
    modifies store
    ensures store.connected == old(store.connected)
    ensures store.db == if old(store.connected) then Cleared(old(store.db), KeyPrefix + pattern, now) else old(store.db)
  {
    var keys := RedisHelper.Keys(store, KeyPrefix + pattern, now);
    if keys.Err? {
      return;
    }
    var found := keys.value;
    ghost var matched := KeysCmd(store.db, KeyPrefix + pattern, now);
    ghost var db0 := store.db;
    var i := 0;
    while i < |found|
      invariant 0 <= i <= |found|
      invariant store.connected
      invariant forall k :: k in store.db <==> k in db0 && k !in found[..i]
      invariant forall k :: k in store.db ==> store.db[k] == db0[k]
    {
      var _ := RedisHelper.Del(store, found[i], now);
      i := i + 1;
    }
    assert found[..i] == found;
    assert forall k :: k in found <==> k in matched;
  }

  /**
   * Invalidation is exact: from the moment of the clear on, a key the pattern
   * matches reads as absent and every other key reads as before.
   */
  lemma ClearedExactly(db: Db, pattern: string, now: int, k: string, later: int)
    requires now <= later
    ensures Lookup(Cleared(db, pattern, now), k, later) ==
            if Glob.Match(pattern, k) then None else Lookup(db, k, later)
  {
  }

  /** A pattern that matches no live key changes nothing. */
  lemma ClearNoMatch(db: Db, pattern: string, now: int)
    requires KeysCmd(db, pattern, now) == {}
    ensures Cleared(db, pattern, now) == db
  {
  }

  /** Clearing twice is clearing once. */
  lemma ClearIdempotent(db: Db, pattern: string, now: int)
    ensures Cleared(Cleared(db, pattern, now), pattern, now) == Cleared(db, pattern, now)
  {
  }

  /** A clear only ever deletes keys of the cache namespace; rate-limit counters and the rest survive. */
  lemma ClearSparesOtherKeys(db: Db, pattern: string, now: int, k: string)
    requires k in db
    requires !(|KeyPrefix| <= |k| && k[..|KeyPrefix|] == KeyPrefix)
    ensures k in Cleared(db, KeyPrefix + pattern, now) && Cleared(db, KeyPrefix + pattern, now)[k] == db[k]
  {
    Glob.LiteralPrefix(KeyPrefix, pattern, k);
  }
}
