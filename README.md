# Chapter API: request admission and response caching

This project models the core of a small Express/MongoDB/Redis service. The
service serves course chapters under `/api/v1/chapters`. The model covers:

- **Rate limiter** (`RateLimiter`). It keeps a fixed-window counter per client
  identity, stored under `rate_limit:<identity>`.
  - The shipped Redis helper has no `isConnected`, `incr` or `expire`, so in
    practice the counters live in a process-wide in-memory table.
  - A record is `{count, expiry}`. An open window is bumped and keeps its
    expiry. An absent or lapsed record restarts at 1 with a fresh window.
  - A periodic sweep deletes the lapsed records.
  - The handler sets the `X-RateLimit-*` headers and answers 429 once the
    count passes the limit. It fails open on any internal error.
  - The Redis branch (INCR, then EXPIRE on the first count) is modelled too,
    against the same abstract store.
- **Response cache** (`Cache`). It applies to GET requests only. The key is
  `cache:` followed by the raw URL.
  - A truthy cached body is replayed with status 200.
  - On a miss, the body the handler sends is also stored for `duration`
    seconds.
  - `clearCache(pattern)` deletes every live key that matches the Redis KEYS
    glob `cache:<pattern>`.
- **Substrate** for the cache and the limiter:
  - a Redis server: `RedisStore`, a map of string values with an optional
    expiry in ms, serving GET, SETEX, DEL, KEYS, INCR and EXPIRE;
  - its JSON helper layer (`RedisHelper`);
  - `JSON.stringify` and `JSON.parse` (`JsonText`, over the JSON values of
    `Json`);
  - decimal integer text (`Decimal`);
  - the KEYS glob matcher (`Glob`).
- **Pure helpers**:
  - the response envelopes `errorResponse` and `successResponse`
    (`Response`);
  - the upload MIME filter, limits and error classifier (`Upload`).
- **Chapter controller** (`ChapterController`):
  - the query-to-filter builder, the paging window and the list reply;
  - the not-found branch of the lookup by id;
  - cache invalidation after a create;
  - the validation steps and the save loop of the bulk upload, which
    partitions elements into `inserted` and `failed`.

Time is an integer parameter `now`, in milliseconds. The database is an
oracle:

- the collection as a list of documents, or the error the driver raises;
- the outcome of each save, indexed by position.

A route handler is a function from the request to the reply it sends. The
response builders are Dafny functions, so they are total and deterministic by
construction.

## Model

| member | source | states |
|---|---|---|
| RateLimiter.Configure | src/middleware/rateLimiter.middleware.js:30-36 | each option left undefined takes its default: 60000 ms, 30 requests, the default message, and identity by client address; each supplied option, the key generator included, is used as given |
| RateLimiter.CounterKey | src/middleware/rateLimiter.middleware.js:40 | the counter key is `rate_limit:` followed by the identity, verbatim |
| RateLimiter.CounterKeyInjective | src/middleware/rateLimiter.middleware.js:40 | two identities share a counter only when they are equal |
| RateLimiter.Bump | src/middleware/rateLimiter.middleware.js:69-80 | a record whose window is open (now < expiry) gets count + 1 and keeps its expiry; an absent or lapsed one becomes count 1 with expiry now + windowMs; no other record changes |
| RateLimiter.MemoryStore.Hit | src/middleware/rateLimiter.middleware.js:69-80 | the table becomes the bumped table and the answer is the key's new count |
| RateLimiter.Swept | src/middleware/rateLimiter.middleware.js:11-18 | the sweep keeps exactly the records with !(now > expiry), each unchanged |
| RateLimiter.MemoryStore.Cleanup | src/middleware/rateLimiter.middleware.js:11-18 | deleting while walking the table leaves exactly the swept table |
| RateLimiter.SweepBoundary | src/middleware/rateLimiter.middleware.js:14 | a record with expiry == now survives the sweep at now, yet a request at now restarts it at count 1 |
| RateLimiter.SweepInvisible | src/middleware/rateLimiter.middleware.js:11-18 | a sweep at or before a request never changes the record that request produces |
| RateLimiter.Decide | src/middleware/rateLimiter.middleware.js:86-102 | Limit = max; Remaining = max(0, max - count), never negative; Reset = floor(now/1000) + floor(windowMs/1000); 429 exactly when count > max, with retryAfter the full window |
| RateLimiter.RedisAttempt | src/middleware/rateLimiter.middleware.js:49-64 | a client that is not connected, or an INCR that fails, gives no count and leaves the store alone; a successful INCR's answer is the count, and the store is INCR's, followed by EXPIRE for the window when the count is 1 |
| RateLimiter.ExpireOnlyOnFirst | src/middleware/rateLimiter.middleware.js:52-57 | EXPIRE is issued only on count 1: later counts keep the key's expiry, and the first gets expiry now + window |
| RateLimiter.RedisSubSecondWindow | src/middleware/rateLimiter.middleware.js:56 | with a window under one second, EXPIRE 0 deletes the fresh counter at once: the request counts 1, the key is left absent, the next request counts 1 again, and with a positive limit neither is refused |
| RateLimiter.Handle | src/middleware/rateLimiter.middleware.js:38-113 | a failing key generator fails open with no headers and no state change; otherwise the Redis attempt, or else the memory bump, is applied (a denied request is counted too) and the outcome is the decision on that count |
| RateLimiter.ReplayOpenWindow | src/middleware/rateLimiter.middleware.js:73-75 | requests inside an open window count up by one each from the record and keep its expiry |
| RateLimiter.WindowQuota | src/middleware/rateLimiter.middleware.js:93-102 | in one window opened on a fresh or lapsed counter, request i counts i + 1, and exactly the first max requests are admitted |
| RateLimiter.GeneralLimiterThirtyFirst | src/routes/chapter.routes.js:24-27 | under the general limiter the 30th request of a minute is admitted and the 31st gets 429 with Remaining 0 |
| RateLimiter.LimitersShareCounter | src/routes/chapter.routes.js:24-32 | both route limiters bump the same record, so a GET soon after an upload counts 2 and inherits the 15-minute window |
| RedisStore.SetExCmd | src/config/redis.config.js:80-88 | SETEX fails exactly when seconds <= 0; otherwise it adds the key and leaves every other key unchanged |
| RedisStore.DelCmd | src/config/redis.config.js:103-111 | DEL removes the key, leaves every other entry unchanged, and answers 1 exactly when a live key was removed |
| RedisStore.KeysCmd | src/config/redis.config.js:114-122 | KEYS answers exactly the live keys the glob matches |
| RedisStore.ReadInt64 | src/middleware/rateLimiter.middleware.js:52 | a value INCR accepts is within the signed 64-bit range |
| RedisStore.SetExThenLookup | src/config/redis.config.js:80-100 | a value stored by SETEX reads back up to and including the instant its time to live ends, and not afterwards |
| RedisStore.OtherKeysUntouched | src/config/redis.config.js:80-111 | SETEX and DEL do not change how any other key reads |
| RedisStore.IncrFresh | src/middleware/rateLimiter.middleware.js:52 | INCR on an absent key answers 1 and stores "1" with no expiry |
| RedisStore.IncrAfterIncr | src/middleware/rateLimiter.middleware.js:52 | INCR on a value INCR wrote answers the next integer and keeps the expiry |
| RedisStore.ReadInt64Show | src/middleware/rateLimiter.middleware.js:52 | every 64-bit integer INCR writes reads back as itself |
| RedisStore.Store.Get | src/config/redis.config.js:91-100 | GET answers the live value, or the closed-client error |
| RedisStore.Store.SetEx | src/config/redis.config.js:80-88 | the store becomes the SETEX result, or is unchanged with the error |
| RedisStore.Store.Del | src/config/redis.config.js:103-111 | the store becomes the DEL result |
| RedisStore.Store.Keys | src/config/redis.config.js:114-122 | the answer lists each matching live key exactly once |
| RedisStore.Store.Incr | src/middleware/rateLimiter.middleware.js:52 | the store and the answer are those of INCR, or it is unchanged with the error |
| RedisStore.Store.Expire | src/middleware/rateLimiter.middleware.js:56 | the store and the answer are those of EXPIRE |
| RedisHelper.Decode | src/config/redis.config.js:95 | a missing or empty value reads as null; any other text reads as its JSON value, or fails exactly when it is not JSON |
| RedisHelper.DecodeStringify | src/config/redis.config.js:83-95 | reading back the text that `setEx` writes gives the value written |
| RedisHelper.SetEx | src/config/redis.config.js:80-88 | stores the JSON text of the value under SETEX's rules; errors are passed on |
| RedisHelper.Get | src/config/redis.config.js:91-100 | answers the decoded live value, or the client error |
| RedisHelper.Del | src/config/redis.config.js:103-111 | passes DEL through |
| RedisHelper.Keys | src/config/redis.config.js:114-122 | passes KEYS through: the matching live keys, each once |
| JsonText.ParseStringify | src/config/redis.config.js:83-95 | `JSON.parse(JSON.stringify(v))` is v for every value whose objects have distinct keys |
| JsonText.ValueRoundTrip | src/config/redis.config.js:83-95 | the text of a value parses back to the value and leaves the text after it, when that text is empty or starts with `,`, `]` or `}` |
| JsonText.SurrogatePairRoundTrip | src/controllers/chapter.controller.js:90 | a character beyond the Basic Multilingual Plane, escaped as its surrogate pair `\uD8xx\uDCxx`, parses back as that one character |
| Decimal.ReadShow | src/middleware/rateLimiter.middleware.js:52 | the decimal text of an integer reads back as that integer |
| Decimal.ShowRead | src/middleware/rateLimiter.middleware.js:52 | an integer read from text prints back as that text, except for "-0" |
| Glob.StarMatchesAll | src/middleware/cache.middleware.js:51 | the pattern `*` matches every key |
| Glob.LiteralPrefix | src/middleware/cache.middleware.js:51 | a pattern starting with ordinary characters matches a key exactly when the key starts with them and the rest matches the rest |
| Glob.LiteralMatchesItself | src/middleware/cache.middleware.js:51 | a pattern without glob characters matches exactly itself |
| Glob.PrefixStar | src/middleware/cache.middleware.js:51 | `prefix*` matches exactly the keys that start with the prefix |
| Json.AssignGet | src/controllers/chapter.controller.js:17-22 | after `obj[k] = v`, k reads as v and every other key reads as before |
| Json.AssignDistinct | src/controllers/chapter.controller.js:17-22 | property assignment keeps the keys of an object distinct |
| Json.CollectGet | src/utils/response.js:13 | after a spread, a key reads as its last spread value, or as before when it was not spread |
| Json.CollectKeys | src/utils/response.js:9-14 | a spread adds exactly the spread keys and keeps the keys distinct |
| Response.ErrorResponse | src/utils/response.js:8-15 | the error envelope is an object with distinct keys: status, message and code, plus the keys of data |
| Response.ErrorResponseField | src/utils/response.js:9-14 | each field reads as the value from data when data has that key (so data overrides status, message or code), and otherwise as the default |
| Response.ErrorResponseDefault | src/utils/response.js:8-15 | with data defaulted, the envelope is exactly status "error", message and code, in that order |
| Response.SuccessResponse | src/utils/response.js:24-31 | the success envelope has exactly the keys status, message, code and data, each once |
| Response.SuccessResponseNested | src/utils/response.js:24-31 | data is nested, never spread: status stays "success" and data comes back whole under its own key |
| Response.SuccessResponseDefaults | src/utils/response.js:24 | data defaults to an empty object and code to 200 |
| Cache.CacheKey | src/middleware/cache.middleware.js:15 | the key is `cache:` followed by the original URL (or the router URL when that is empty or missing), verbatim |
| Cache.CacheKeyVerbatim | src/middleware/cache.middleware.js:15 | two requests share an entry exactly when their raw URLs are equal |
| Cache.Handle | src/middleware/cache.middleware.js:8-41 | the reply, whether the handler ran, and the new store are those of the middleware function `Respond` |
| Cache.NonGetPassesThrough | src/middleware/cache.middleware.js:11-13 | a non-GET request runs the handler and the store is neither read nor written |
| Cache.LookupErrorFallsThrough | src/middleware/cache.middleware.js:38-41 | a failing lookup runs the handler and caches nothing |
| Cache.StoredThenLooked | src/middleware/cache.middleware.js:19-35 | the body stored on a miss is looked up, equal to itself, until the time to live is over |
| Cache.MissThenHit | src/middleware/cache.middleware.js:19-35 | a miss sends the handler's reply and stores its body; a repeat within the time to live is answered from the cache with status 200, and the handler does not run |
| Cache.ReplayDropsStatus | src/middleware/cache.middleware.js:20-22 | a replayed reply differs from the original when the original status was not 200 |
| Cache.FalsyBodyNeverServed | src/middleware/cache.middleware.js:20-23 | a falsy body is stored but counts as a miss: the handler runs again |
| Cache.Cleared | src/middleware/cache.middleware.js:49-58 | a key survives a clear exactly when KEYS did not report it, and every survivor keeps its entry |
| Cache.ClearCache | src/middleware/cache.middleware.js:49-58 | with the client up the store becomes the cleared store; a client error leaves the store unchanged and is swallowed |
| Cache.ClearedExactly | src/middleware/cache.middleware.js:51-54 | after a clear, a matching key reads as absent and every other key reads as before |
| Cache.ClearNoMatch | src/middleware/cache.middleware.js:52 | a pattern that matches no live key changes nothing |
| Cache.ClearIdempotent | src/middleware/cache.middleware.js:49-58 | clearing twice is the same as clearing once |
| Cache.ClearSparesOtherKeys | src/middleware/cache.middleware.js:51 | a key outside the `cache:` namespace survives every clear unchanged |
| Upload.FileFilter | src/middleware/upload.middleware.js:9-15 | a file is accepted exactly when its type is application/json; otherwise the error is "Only JSON files are allowed" |
| Upload.Receive | src/middleware/upload.middleware.js:18-25 | a single JSON part in the `file` field of at most 5 MiB reaches the controller, and nothing else does; a larger JSON file gives LIMIT_FILE_SIZE, a second part after a valid first gives LIMIT_FILE_COUNT, a non-JSON first part gives the filter error and another field gives LIMIT_UNEXPECTED_FILE |
| Upload.Classify | src/middleware/upload.middleware.js:28-53 | LIMIT_FILE_SIZE, LIMIT_FILE_COUNT and other multer errors give 400 with their messages; the filter error gives 400; every other error gives 500 |
| Upload.HandleUploadError | src/middleware/upload.middleware.js:28-53 | the reply has the classified status and an error envelope as its body |
| Upload.UploadErrorEnvelope | src/middleware/upload.middleware.js:28-53 | every upload error body is exactly {status: "error", message, code}, with code equal to the status sent |
| Upload.RejectsNonJson | src/tests/upload.test.js:11-23 | a text/plain upload gets 400 "Only JSON files are allowed" |
| Upload.RejectsLargeFile | src/tests/upload.test.js:25-42 | a 6 MiB JSON upload gets 400 with the size message |
| Upload.RejectsSecondFile | src/tests/upload.test.js:44-56 | two files get 400 with the file-count message |
| ChapterController.Put | src/controllers/chapter.controller.js:17-22 | a conditional assignment adds its key exactly when there is a value, and keeps keys distinct |
| ChapterController.PutGet | src/controllers/chapter.controller.js:17-22 | after a conditional assignment, its key reads as the value when there is one, and every other key reads as before |
| ChapterController.Filter | src/controllers/chapter.controller.js:16-22 | class, unit, status and subject are present only when the query value is truthy; isWeakChapter is present exactly when weakChapters is given, and is true exactly when it is "true"; no other keys |
| ChapterController.FilterGet | src/controllers/chapter.controller.js:16-22 | each key of the filter reads as its criterion, and any other key reads as absent |
| ChapterController.BuildFilter | src/controllers/chapter.controller.js:16-22 | the conditional assignments on an empty object build the filter |
| ChapterController.Filtered | src/controllers/chapter.controller.js:25-28 | the selected documents are no more than the collection, and each one matches the filter |
| ChapterController.FilteredExactly | src/controllers/chapter.controller.js:25-28 | a matching document occurs in the selection as often as in the collection and a non-matching one not at all, so the count is the number of matching documents |
| ChapterController.FilteredAppend | src/controllers/chapter.controller.js:26-28 | selection keeps collection order: two stretches of the collection are selected stretch by stretch |
| ChapterController.Window | src/controllers/chapter.controller.js:26-28 | a negative skip is refused; otherwise the window is the documents after the skip, taken consecutively from there, as many as the limit allows (limit 0 means no limit, a negative limit counts by its size) or as remain |
| ChapterController.GetChapters | src/controllers/chapter.controller.js:5-39 | a database error goes to the error handler; otherwise the reply echoes page and limit (defaults 1 and 10), counts every matching chapter and lists the window at (page - 1) * limit |
| ChapterController.DefaultPaging | src/controllers/chapter.controller.js:8-9 | without page and limit the skip is 0 and the first ten matching chapters are listed |
| ChapterController.PagesTile | src/controllers/chapter.controller.js:24-28 | pages 1 to n, one after another, are exactly the first n * limit matching chapters |
| ChapterController.PageZeroRefused | src/controllers/chapter.controller.js:24-28 | page 0 or below gives a negative skip, which the database refuses |
| ChapterController.GetChapterById | src/controllers/chapter.controller.js:42-54 | a missing chapter gives exactly 404 "Chapter not found"; a found one is sent with 200; a lookup error goes to the error handler |
| ChapterController.NotFoundReplayedAs200 | src/routes/chapter.routes.js:57 | the id route is cached, so its 404 body is stored and the next request within the hour gets it with status 200 |
| ChapterController.CreateChapter | src/controllers/chapter.controller.js:57-78 | only a successful save clears `cache:/api/v1/chapters*` and answers 201 with the chapter; a validation error answers 400 and clears nothing; any other error goes to the error handler |
| ChapterController.ChaptersPatternMatches | src/controllers/chapter.controller.js:64 | the pattern matches exactly the keys that start with `cache:/api/v1/chapters` |
| ChapterController.CreateInvalidatesChapterPages | src/controllers/chapter.controller.js:61-64 | after a create, no cached page under the chapter routes is served |
| ChapterController.UploadClearsEveryCachedKey | src/controllers/chapter.controller.js:116 | clearing `*` after an upload removes every cached response |
| ChapterController.SaveAll | src/controllers/chapter.controller.js:104-114 | the loop builds exactly the saved chapters and the failure entries, in input order |
| ChapterController.PartitionCount | src/controllers/chapter.controller.js:104-114 | inserted.length + failed.length equals the number of elements |
| ChapterController.NoFailures | src/controllers/chapter.controller.js:104-114 | failed is empty exactly when every save succeeded |
| ChapterController.PartitionPrefix | src/controllers/chapter.controller.js:104-114 | the lists only grow: what the first elements produce is a prefix of what all of them produce |
| ChapterController.Placement | src/controllers/chapter.controller.js:104-114 | element i lands in its list right after the earlier elements that landed there: its chapter in inserted, or its data and error in failed |
| ChapterController.UploadChapters | src/controllers/chapter.controller.js:81-127 | no file, then unparsable JSON, then a non-array are refused with 400 in that order, and nothing is saved or cleared; otherwise every element is saved, the whole cache is cleared and the summary is sent |
| ChapterController.SummaryFaithful | src/controllers/chapter.controller.js:116-123 | the summary counts every element once, and its message is "All chapters uploaded successfully" exactly when no save failed |

## Left out

- Connection setup, event handlers, SIGINT `quit` and `clearAll` in `src/config/redis.config.js`: these are client plumbing, not part of the admission or caching logic. The client is a connected flag. When the flag is down, every command fails with the closed-client error.
- Concurrency: two requests racing on one counter or one cache key are not modelled. Each request is one sequential step.
- Cache.Handle: the `setEx` issued from the wrapped `res.json` is fire-and-forget in the source. The model applies its effect before the middleware returns and drops its error, as the `.catch` does.
- `setInterval` scheduling of the sweep: the sweep is the explicit method `RateLimiter.MemoryStore.Cleanup`.
- RateLimiter.Handle: the source calls `Date.now()` up to three times per request. The model uses one instant `now` for the lookup, the new expiry and the Reset header.
- RateLimiter.Handle: `redis` set to `null` stands for the helper as shipped. That helper lacks `isConnected`, `incr` and `expire`, so the Redis branch always throws and the memory table is used. A non-null `redis` models a helper that has those commands.
- RateLimiter.Handle: the outer `catch` is reached only through a key generator that throws, modelled as one that returns `None`. Header writes cannot fail in the model.
- Logging (`console.*` and `winston`) has no effect on the model and is left out.
- JSON numbers are integers. Fractions, exponents and floating point are not modelled. JsonText.Parse rejects them, so it is weaker than `JSON.parse` on such text.
- JsonText.Parse: a `\u` escape of a lone surrogate (a high one not followed by a low escape, or a low one on its own) is rejected, because Dafny characters are Unicode scalar values. `JSON.parse` accepts it, so an uploaded file holding such an escape gets 400 "Invalid JSON file" in the model. An escaped surrogate pair is combined into its one character.
- JavaScript objects list integer-like keys first, in numeric order. That ordering is not modelled: fields keep insertion order.
- Glob.Match: the `[...]` character classes of Redis KEYS are not modelled, and `?` matches one Dafny character where Redis matches one byte. The callers of `clearCache` use only `*`.
- Upload.Receive: multer's streaming internals are not modelled. The model checks the first part in this order: field name, then the type filter, then the size, then the number of parts. Multer's own order of these checks is not visible in this repository.
- ChapterController.GetChapters: `parseInt` is assumed already applied, so `page` and `limit` are integers, and NaN is not modelled. Query values that are arrays are not modelled.
- ChapterController.GetChapters: `countDocuments` and `find` read one snapshot of the collection. Mongo's query casting is simplified to equality of JSON values.
- ChapterController.CreateChapter: mongoose schema validation and casting are not modelled. The outcome of `save` is an oracle that returns either a validation error or any other error.
- ChapterController.UploadChapters: the outcome of each save is an oracle indexed by the element's position.
- The Express error handler behind `next(error)` is not part of this model. Passing an error on is modelled as an `Err` result. On a GET miss, the error handler's reply (`src/index.js:73-79`) goes through the wrapped `res.json` as well, so it is cached and later replayed with status 200. The model does not show this, because `Cache.Respond` only stores replies of the route handler.
- Upload.FilePart: the size of the file and its text are separate fields. The UTF-8 decoding of the uploaded buffer (`req.file.buffer.toString()`) is not modelled, and neither is the relation between the byte size and the text.
- Authentication middleware (`authenticateAdmin`, `optionalAuth`) and the global rate limiter in `src/index.js` are not part of this model.
- The wrapping of `res.json` is modelled as a handler function whose reply is both sent and stored. The replaced `res.json` field itself is not modelled.
- The rate limiter's `retryAfter` is always the full window (`src/middleware/rateLimiter.middleware.js:100`), not the time left in the current window. The model follows the code.
