/**
 * The chapter controller: listing with filters and pages, lookup by id,
 * creation and bulk upload, with the cache invalidation each write performs.
 * The database is an oracle: the chapters collection as a list (or the error
 * the driver raises), and the outcome of each save.
 */
module ChapterController {
  import opened Wrappers
  import opened Json
  import JsonText
  import opened Http
  import RedisStore
  import Cache
  import Glob
  import Upload

  // ---------------------------------------------------------------------------
  // The list filter

  /** The query parameters `getChapters` reads: page and limit already as integers, the rest as strings; `None` is a parameter not given. */
  datatype Query = Query(page: Option<int>, limit: Option<int>, className: Option<string>, unit: Option<string>,
                         status: Option<string>, weakChapters: Option<string>, subject: Option<string>)

  /** A string query value is truthy when given and not empty. */
  predicate Given(v: Option<string>) {
    v.Some? && v.value != ""
  }

  /** The filter value of a plain criterion: the string itself, only when truthy. */
  function Criterion(v: Option<string>): Option<Json> {
    if Given(v) then Some(JStr(v.value)) else None
  }

  /** The weak-chapter criterion: present whenever given (even empty), true only for "true". */
  function WeakCriterion(v: Option<string>): Option<Json> {
    if v.Some? then Some(JBool(v.value == "true")) else None
  }

  /** `if (v) obj[k] = v`: assigns the field only when there is a value to assign. */
  function Put(fs: seq<Field>, k: string, v: Option<Json>): (r: seq<Field>)
    ensures KeySet(r) == if v.Some? then KeySet(fs) + {k} else KeySet(fs)
    ensures DistinctKeys(fs) ==> DistinctKeys(r)
  {
    if v.Some? then
      PutDistinct(fs, k, v.value);
      Assign(fs, k, v.value)
    else fs
  }

  lemma PutDistinct(fs: seq<Field>, k: string, v: Json)
    ensures DistinctKeys(fs) ==> DistinctKeys(Assign(fs, k, v))
  {
    if DistinctKeys(fs) { AssignDistinct(fs, k, v); }
  }

  lemma PutGet(fs: seq<Field>, k: string, v: Option<Json>, k': string)
    ensures Get(Put(fs, k, v), k') == if k' == k && v.Some? then v else Get(fs, k')
  {
    if v.Some? { AssignGet(fs, k, v.value, k'); }
  }

  /** The filter object, one conditional assignment per criterion, in the order of the source. */
  function Filter(q: Query): (f: seq<Field>)
    ensures DistinctKeys(f)
    ensures KeySet(f) <= {"class", "unit", "status", "subject", "isWeakChapter"}
    ensures Get(f, "class") == Criterion(q.className)
    ensures Get(f, "unit") == Criterion(q.unit)
    ensures Get(f, "status") == Criterion(q.status)
    ensures Get(f, "subject") == Criterion(q.subject)
    ensures Get(f, "isWeakChapter") == WeakCriterion(q.weakChapters)
  {
    var f1 := Put([], "class", Criterion(q.className));
    var f2 := Put(f1, "unit", Criterion(q.unit));
    var f3 := Put(f2, "status", Criterion(q.status));
    var f4 := Put(f3, "subject", Criterion(q.subject));
    var f5 := Put(f4, "isWeakChapter", WeakCriterion(q.weakChapters));
    FilterGet(q, f1, f2, f3, f4, f5, "class");
    FilterGet(q, f1, f2, f3, f4, f5, "unit");
    FilterGet(q, f1, f2, f3, f4, f5, "status");
    FilterGet(q, f1, f2, f3, f4, f5, "subject");
    FilterGet(q, f1, f2, f3, f4, f5, "isWeakChapter");
    f5
  }

  /** Each key of the filter reads as the last assignment to it, or as absent. */
  lemma FilterGet(q: Query, f1: seq<Field>, f2: seq<Field>, f3: seq<Field>, f4: seq<Field>, f5: seq<Field>, k: string)
    requires f1 == Put([], "class", Criterion(q.className))
    requires f2 == Put(f1, "unit", Criterion(q.unit))
    requires f3 == Put(f2, "status", Criterion(q.status))
    requires f4 == Put(f3, "subject", Criterion(q.subject))
    requires f5 == Put(f4, "isWeakChapter", WeakCriterion(q.weakChapters))
    ensures Get(f5, k) ==
      if k == "isWeakChapter" then WeakCriterion(q.weakChapters)
      else if k == "subject" then Criterion(q.subject)
      else if k == "status" then Criterion(q.status)
      else if k == "unit" then Criterion(q.unit)
      else if k == "class" then Criterion(q.className)
      else None
  {
    PutGet([], "class", Criterion(q.className), k);
    PutGet(f1, "unit", Criterion(q.unit), k);
    PutGet(f2, "status", Criterion(q.status), k);
    PutGet(f3, "subject", Criterion(q.subject), k);
    PutGet(f4, "isWeakChapter", WeakCriterion(q.weakChapters), k);
  }

  /** The filter built by conditional property assignments on an empty object. */
  method BuildFilter(q: Query) returns (filter: seq<Field>)
    ensures filter == Filter(q)
  {
    filter := [];
    if Given(q.className) {
      filter := Assign(filter, "class", JStr(q.className.value));
    }
    if Given(q.unit) {
      filter := Assign(filter, "unit", JStr(q.unit.value));
    }
    if Given(q.status) {
      filter := Assign(filter, "status", JStr(q.status.value));
    }
    if Given(q.subject) {
      filter := Assign(filter, "subject", JStr(q.subject.value));
    }
    if q.weakChapters.Some? {
      filter := Assign(filter, "isWeakChapter", JBool(q.weakChapters.value == "true"));
    }
  }

  // ---------------------------------------------------------------------------
  // Listing, paging and lookup

  /** An equality filter: the document has every field of the filter with the same value. */
  predicate Matches(filter: seq<Field>, doc: Json) {
    doc.JObj? && forall i :: 0 <= i < |filter| ==> Get(doc.fields, filter[i].key) == Some(filter[i].value)
  }

  /** The documents of the collection that match, in collection order. */
  function Filtered(docs: seq<Json>, filter: seq<Field>): (r: seq<Json>)
    ensures |r| <= |docs|
    ensures forall i :: 0 <= i < |r| ==> Matches(filter, r[i])
  {
    if docs == [] then []
    else (if Matches(filter, docs[0]) then [docs[0]] else []) + Filtered(docs[1..], filter)
  }

  /**
   * Nothing matching is dropped: each document occurs in the selection as
   * often as in the collection when it matches, and not at all otherwise, so
   * the length of the selection is the number of matching documents.
   */
  lemma {:induction false} FilteredExactly(docs: seq<Json>, filter: seq<Field>, d: Json)
    ensures multiset(Filtered(docs, filter))[d] == if Matches(filter, d) then multiset(docs)[d] else 0
    ensures d in Filtered(docs, filter) <==> d in docs && Matches(filter, d)
  {
    if docs != [] {
      FilteredExactly(docs[1..], filter, d);
      assert docs == [docs[0]] + docs[1..];
      var head := if Matches(filter, docs[0]) then [docs[0]] else [];
      assert multiset(head + Filtered(docs[1..], filter)) == multiset(head) + multiset(Filtered(docs[1..], filter));
    }
  }

  /** Selection keeps collection order: the documents of two stretches are selected stretch by stretch. */
  lemma {:induction false} FilteredAppend(a: seq<Json>, b: seq<Json>, filter: seq<Field>)
    ensures Filtered(a + b, filter) == Filtered(a, filter) + Filtered(b, filter)
  {
    if a != [] {
      FilteredAppend(a[1..], b, filter);
      FilteredCons(a[0], a[1..] + b, filter);
      assert [a[0]] + (a[1..] + b) == a + b;
    } else {
      assert a + b == b;
    }
  }

  lemma FilteredCons(d: Json, rest: seq<Json>, filter: seq<Field>)
    ensures Filtered([d] + rest, filter) == (if Matches(filter, d) then [d] else []) + Filtered(rest, filter)
  {
    assert ([d] + rest)[0] == d && ([d] + rest)[1..] == rest;
  }

  const DefaultPage := 1
  const DefaultLimit := 10
  const NegativeSkip := "BSON field 'skip' value must be >= 0"

  /** `(page - 1) * limit`. */
  function Skip(page: int, limit: int): int {
    (page - 1) * limit
  }

  /**
   * `find(filter).skip(skip).limit(limit)` on the matching documents: a
   * negative skip is refused by the database; limit 0 means no limit and a
   * negative limit is taken by its size.
   */
  function Window(all: seq<Json>, skip: int, limit: int): (r: Result<seq<Json>, string>)
    ensures r.Err? <==> skip < 0
    ensures r.Ok? && limit != 0 ==> |r.value| <= if limit < 0 then -limit else limit
    ensures r.Ok? ==> r.value <= all[Min(skip, |all|)..]
    ensures r.Ok? ==>
              var from := Min(skip, |all|);
              |r.value| == (if limit == 0 then |all| - from else Min(if limit < 0 then -limit else limit, |all| - from)) &&
              forall i :: 0 <= i < |r.value| ==> r.value[i] == all[from + i]
  {
    if skip < 0 then Err(NegativeSkip)
    else
      var from := Min(skip, |all|);
      var n := if limit == 0 then |all| else if limit < 0 then -limit else limit;
      var to := Min(from + n, |all|);
      Ok(all[from..to])
  }

  function Min(a: int, b: int): int {
    if a < b then a else b
  }

  function ListBody(total: int, page: int, limit: int, chapters: seq<Json>): Json {
    JObj([Field("total", JNum(total)), Field("page", JNum(page)), Field("limit", JNum(limit)),
          Field("chapters", JArr(chapters))])
  }

  /**
   * `getChapters`: the reply, or the error passed to `next`. The body echoes
   * page and limit (defaults 1 and 10), counts every matching chapter and
   * lists the page's window of them.
   */
  method GetChapters(q: Query, collection: Result<seq<Json>, string>) returns (r: Result<Reply, string>)
    ensures collection.Err? ==> r == Err(collection.error)
    ensures collection.Ok? ==>
              var page := q.page.GetOr(DefaultPage);
              var limit := q.limit.GetOr(DefaultLimit);
              var matching := Filtered(collection.value, Filter(q));
              match Window(matching, Skip(page, limit), limit)
              case Err(e) => r == Err(e)
              case Ok(w) => r == Ok(Reply(DefaultStatus, ListBody(|matching|, page, limit, w)))
  {
    var page := q.page.GetOr(DefaultPage);
    var limit := q.limit.GetOr(DefaultLimit);
    var filter := BuildFilter(q);
    var skip := Skip(page, limit);
    if collection.Err? {
      return Err(collection.error);
    }
    var total := |Filtered(collection.value, filter)|;
    var chapters := Window(Filtered(collection.value, filter), skip, limit);
    if chapters.Err? {
      return Err(chapters.error);
    }
    r := Ok(Reply(DefaultStatus, ListBody(total, page, limit, chapters.value)));
  }

  /** Without page and limit the first ten matching chapters are listed. */
  lemma DefaultPaging(all: seq<Json>)
    ensures Skip(DefaultPage, DefaultLimit) == 0
    ensures Window(all, Skip(DefaultPage, DefaultLimit), DefaultLimit) == Ok(all[..Min(10, |all|)])
  {
  }

  /** Consecutive pages tile the matching chapters: pages 1..n together are the first n * limit of them. */
  lemma {:induction false} PagesTile(all: seq<Json>, limit: int, n: nat)
    requires limit > 0
    ensures Pages(all, limit, n) == all[..Min(n * limit, |all|)]
  {
    if n > 0 {
      PagesTile(all, limit, n - 1);
      var from := Min((n - 1) * limit, |all|);
      var to := Min(n * limit, |all|);
      assert Skip(n, limit) == (n - 1) * limit;
      assert Min(from + limit, |all|) == to;
      assert all[..from] + all[from..to] == all[..to];
    }
  }

  /** Pages 1 to n listed one after another. */
  function Pages(all: seq<Json>, limit: int, n: nat): seq<Json>
    requires limit > 0
  {
    if n == 0 then [] else Pages(all, limit, n - 1) + Window(all, Skip(n, limit), limit).value
  }

  /** Page 0 or below gives a negative skip, which the database refuses: the error goes to `next`. */
  lemma PageZeroRefused(all: seq<Json>, page: int, limit: int)
    requires page < 1 && limit > 0
    ensures Window(all, Skip(page, limit), limit).Err?
  {
  }

  function NotFoundBody(): Json {
    JObj([Field("status", JStr("error")), Field("message", JStr("Chapter not found"))])
  }

  /** `getChapterById`: the chapter found, a 404 when there is none, or the lookup error passed to `next`. */
  function GetChapterById(found: Result<Option<Json>, string>): (r: Result<Reply, string>)
    ensures found.Err? <==> r.Err?
    ensures found == Ok(None) <==> r == Ok(Reply(404, NotFoundBody()))
    ensures found.Ok? && found.value.Some? ==> r == Ok(Reply(DefaultStatus, found.value.value))
  {
    match found
    case Err(e) => Err(e)
    case Ok(None) => Ok(Reply(404, NotFoundBody()))
    case Ok(Some(chapter)) => Ok(Reply(DefaultStatus, chapter))
  }

  /**
   * The id route is cached too, so its 404 body is stored and a second
   * request for the same id within the hour is answered 200 with that body.
   */
  lemma NotFoundReplayedAs200(db: RedisStore.Db, req: Request, now: int, later: int)
    requires req.verb == "GET"
    requires Cache.Looked(true, db, Cache.CacheKey(req), now) == Ok(JNull)
    requires now <= later <= now + 3600 * 1000
    ensures var handler := (r: Request) => GetChapterById(Ok(None)).value;
            var first := Cache.Respond(true, db, 3600, req, handler, now);
            first.reply.status == 404 &&
            Cache.Respond(true, first.db, 3600, req, handler, later).reply == Reply(200, NotFoundBody())
  {
    var handler := (r: Request) => GetChapterById(Ok(None)).value;
    assert DistinctKeys(NotFoundBody().fields);
    Cache.MissThenHit(db, 3600, req, handler, now, later);
  }

  // ---------------------------------------------------------------------------
  // Writes and invalidation

  /** The pattern `createChapter` clears: the list route and everything under it. */
  const ChaptersPattern := "/api/v1/chapters*"
  const ChaptersPrefix := "/api/v1/chapters"

  /** A save rejected by schema validation, or failing in any other way. */
  datatype SaveError = ValidationError(message: string) | OtherSaveError(message: string)

  function CreatedBody(chapter: Json): Json {
    JObj([Field("status", JStr("success")), Field("message", JStr("Chapter created successfully")),
          Field("data", chapter)])
  }

  function ErrorBody(message: string): Json {
    JObj([Field("status", JStr("error")), Field("message", JStr(message))])
  }

  /**
   * `createChapter`: after a successful save the chapter caches are cleared and
   * the chapter comes back with 201; a validation error is a 400 with its
   * message and clears nothing; any other error goes to `next`.
   */
  method CreateChapter(store: RedisStore.Store, saved: Result<Json, SaveError>, now: int)
    returns (r: Result<Reply, string>)
    modifies store
    ensures store.connected == old(store.connected)
    ensures saved.Ok? ==>
              r == Ok(Reply(201, CreatedBody(saved.value))) &&
              store.db == if old(store.connected) then Cache.Cleared(old(store.db), Cache.KeyPrefix + ChaptersPattern, now)
                          else old(store.db)
    ensures saved.Err? && saved.error.ValidationError? ==>
              r == Ok(Reply(400, ErrorBody(saved.error.message))) && store.db == old(store.db)
    ensures saved.Err? && saved.error.OtherSaveError? ==> r == Err(saved.error.message) && store.db == old(store.db)
  {
    match saved
    case Err(ValidationError(m)) =>
      r := Ok(Reply(400, ErrorBody(m)));
    case Err(OtherSaveError(m)) =>
      r := Err(m);
    case Ok(chapter) =>
      Cache.ClearCache(store, ChaptersPattern, now);
      r := Ok(Reply(201, CreatedBody(chapter)));
  }

  /** `cache:/api/v1/chapters*` matches exactly the keys that start with `cache:/api/v1/chapters`. */
  lemma ChaptersPatternMatches(k: string)
    ensures var prefix := Cache.KeyPrefix + ChaptersPrefix;
            Glob.Match(Cache.KeyPrefix + ChaptersPattern, k) <==> |prefix| <= |k| && k[..|prefix|] == prefix
  {
    var prefix := Cache.KeyPrefix + ChaptersPrefix;
    assert Cache.KeyPrefix + ChaptersPattern == prefix + "*";
    assert Glob.Literal(prefix);
    Glob.PrefixStar(prefix, k);
  }

  /** After a create, no cached list or item page of the chapter routes is served from the cache. */
  lemma CreateInvalidatesChapterPages(db: RedisStore.Db, req: Request, now: int, later: int)
    requires now <= later
    requires |ChaptersPrefix| <= |Cache.RawUrl(req)| && Cache.RawUrl(req)[..|ChaptersPrefix|] == ChaptersPrefix
    ensures RedisStore.Lookup(Cache.Cleared(db, Cache.KeyPrefix + ChaptersPattern, now), Cache.CacheKey(req), later) == None
  {
    var k := Cache.CacheKey(req);
    var prefix := Cache.KeyPrefix + ChaptersPrefix;
    assert k[..|prefix|] == prefix by {
      assert k == Cache.KeyPrefix + Cache.RawUrl(req);
      assert Cache.RawUrl(req)[..|ChaptersPrefix|] == ChaptersPrefix;
    }
    ChaptersPatternMatches(k);
    Cache.ClearedExactly(db, Cache.KeyPrefix + ChaptersPattern, now, k, later);
  }

  /** The upload clears `cache:*`: every cached response, and nothing outside the cache namespace. */
  lemma UploadClearsEveryCachedKey(db: RedisStore.Db, now: int, k: string, later: int)
    requires now <= later
    requires |Cache.KeyPrefix| <= |k| && k[..|Cache.KeyPrefix|] == Cache.KeyPrefix
    ensures RedisStore.Lookup(Cache.Cleared(db, Cache.KeyPrefix + "*", now), k, later) == None
  {
    Glob.PrefixStar(Cache.KeyPrefix, k);
    Cache.ClearedExactly(db, Cache.KeyPrefix + "*", now, k, later);
  }

  // ---------------------------------------------------------------------------
  // Bulk upload

  /** What each save answers, element by element: the saved chapter or the error message. */
  function Outcomes(items: seq<Json>, save: (nat, Json) -> Result<Json, string>): (rs: seq<Result<Json, string>>)
    ensures |rs| == |items|
    ensures forall i :: 0 <= i < |items| ==> rs[i] == save(i, items[i])
  {
    seq(|items|, i requires 0 <= i < |items| => save(i, items[i]))
  }

  /** The saved chapters, in input order. */
  function Inserted(rs: seq<Result<Json, string>>): seq<Json> {
    if rs == [] then []
    else
      var last := rs[|rs| - 1];
      Inserted(rs[..|rs| - 1]) + if last.Ok? then [last.value] else []
  }

  function FailedEntry(item: Json, message: string): Json {
    JObj([Field("data", item), Field("error", JStr(message))])
  }

  /** `{data, error}` for each element whose save failed, in input order. */
  function Failures(items: seq<Json>, rs: seq<Result<Json, string>>): seq<Json>
    requires |items| == |rs|
  {
    if rs == [] then []
    else
      var last := rs[|rs| - 1];
      Failures(items[..|items| - 1], rs[..|rs| - 1]) +
        if last.Err? then [FailedEntry(items[|items| - 1], last.error)] else []
  }

  /** The loop of `uploadChapters`: save each element in turn, pushing it to `inserted` or to `failed`. */
  method SaveAll(items: seq<Json>, save: (nat, Json) -> Result<Json, string>)
    returns (inserted: seq<Json>, failed: seq<Json>)
    ensures inserted == Inserted(Outcomes(items, save))
    ensures failed == Failures(items, Outcomes(items, save))
  {
    ghost var rs := Outcomes(items, save);
    inserted, failed := [], [];
    var i := 0;
    while i < |items|
      invariant 0 <= i <= |items|
      invariant inserted == Inserted(rs[..i])
      invariant failed == Failures(items[..i], rs[..i])
    {
      var outcome := save(i, items[i]);
      assert rs[..i + 1][..i] == rs[..i] && items[..i + 1][..i] == items[..i];
      if outcome.Ok? {
        inserted := inserted + [outcome.value];
      } else {
        failed := failed + [FailedEntry(items[i], outcome.error)];
      }
      i := i + 1;
    }
    assert rs[..i] == rs && items[..i] == items;
  }

  /** Every element lands in exactly one list: the two lengths add up to the input length. */
  lemma {:induction false} PartitionCount(items: seq<Json>, rs: seq<Result<Json, string>>)
    requires |items| == |rs|
    ensures |Inserted(rs)| + |Failures(items, rs)| == |rs|
  {
    if rs != [] {
      PartitionCount(items[..|items| - 1], rs[..|rs| - 1]);
    }
  }

  /** Nothing failed exactly when every save succeeded. */
  lemma {:induction false} NoFailures(items: seq<Json>, rs: seq<Result<Json, string>>)
    requires |items| == |rs|
    ensures Failures(items, rs) == [] <==> forall i :: 0 <= i < |rs| ==> rs[i].Ok?
  {
    if rs != [] {
      var p := rs[..|rs| - 1];
      NoFailures(items[..|items| - 1], p);
      if forall i :: 0 <= i < |rs| ==> rs[i].Ok? {
        assert forall i :: 0 <= i < |p| ==> p[i].Ok? by {
          forall i | 0 <= i < |p| ensures p[i].Ok? { assert p[i] == rs[i]; }
        }
      } else {
        var i :| 0 <= i < |rs| && !rs[i].Ok?;
        if i < |p| {
          assert p[i] == rs[i];
        }
      }
    }
  }

  /** The lists grow in input order: what the first elements produce is a prefix of what all produce. */
  lemma {:induction false} PartitionPrefix(items: seq<Json>, rs: seq<Result<Json, string>>, n: nat)
    requires |items| == |rs| && n <= |rs|
    ensures Inserted(rs[..n]) <= Inserted(rs)
    ensures Failures(items[..n], rs[..n]) <= Failures(items, rs)
    decreases |rs| - n
  {
    if n < |rs| {
      PartitionPrefix(items, rs, n + 1);
      var q := rs[..n + 1];
      assert q[..|q| - 1] == rs[..n];
      assert items[..n + 1][..n] == items[..n];
    } else {
      assert rs[..n] == rs && items[..n] == items;
    }
  }

  /**
   * Element i appears in its list right after the elements before it that
   * landed in the same list: its saved chapter in `inserted`, or its data and
   * error in `failed`.
   */
  lemma Placement(items: seq<Json>, rs: seq<Result<Json, string>>, i: int)
    requires |items| == |rs| && 0 <= i < |rs|
    ensures rs[i].Ok? ==> |Inserted(rs[..i])| < |Inserted(rs)| && Inserted(rs)[|Inserted(rs[..i])|] == rs[i].value
    ensures rs[i].Err? ==> |Failures(items[..i], rs[..i])| < |Failures(items, rs)| &&
                           Failures(items, rs)[|Failures(items[..i], rs[..i])|] == FailedEntry(items[i], rs[i].error)
  {
    PartitionPrefix(items, rs, i + 1);
    var q := rs[..i + 1];
    assert q[..|q| - 1] == rs[..i] && q[|q| - 1] == rs[i];
    assert items[..i + 1][..i] == items[..i] && items[..i + 1][i] == items[i];
  }

  const NoFile := "No file uploaded"
  const InvalidJson := "Invalid JSON file"
  const NotAnArray := "Uploaded file must be an array of chapters"
  const AllUploaded := "All chapters uploaded successfully"
  const SomeFailed := "Some chapters failed to upload"

  function SummaryBody(inserted: seq<Json>, failed: seq<Json>): Json {
    JObj([Field("inserted", JNum(|inserted|)), Field("failed", JArr(failed)),
          Field("message", JStr(if |failed| > 0 then SomeFailed else AllUploaded))])
  }

  /**
   * `uploadChapters`: a missing file, text that is not JSON and JSON that is
   * not an array are refused with 400 in that order, before anything is saved
   * or cleared; otherwise every element is saved, the whole cache is cleared
   * and the summary is sent.
   */
  method UploadChapters(store: RedisStore.Store, file: Option<Upload.FilePart>,
                        save: (nat, Json) -> Result<Json, string>, now: int)
    returns (r: Reply)
    modifies store
    ensures store.connected == old(store.connected)
    ensures file.None? ==> r == Reply(400, ErrorBody(NoFile)) && store.db == old(store.db)
    ensures file.Some? && JsonText.Parse(file.value.text).None? ==>
              r == Reply(400, ErrorBody(InvalidJson)) && store.db == old(store.db)
    ensures file.Some? && JsonText.Parse(file.value.text).Some? && !JsonText.Parse(file.value.text).value.JArr? ==>
              r == Reply(400, ErrorBody(NotAnArray)) && store.db == old(store.db)
    ensures file.Some? && JsonText.Parse(file.value.text).Some? && JsonText.Parse(file.value.text).value.JArr? ==>
              var items := JsonText.Parse(file.value.text).value.items;
              var rs := Outcomes(items, save);
              r == Reply(DefaultStatus, SummaryBody(Inserted(rs), Failures(items, rs))) &&
              store.db == if old(store.connected) then Cache.Cleared(old(store.db), Cache.KeyPrefix + "*", now)
                          else old(store.db)
  {
    if file.None? {
      return Reply(400, ErrorBody(NoFile));
    }
    var parsed := JsonText.Parse(file.value.text);
    if parsed.None? {
      return Reply(400, ErrorBody(InvalidJson));
    }
    if !parsed.value.JArr? {
      return Reply(400, ErrorBody(NotAnArray));
    }
    var inserted, failed := SaveAll(parsed.value.items, save);
    Cache.ClearCache(store, "*", now);
    r := Reply(DefaultStatus, SummaryBody(inserted, failed));
  }

  /** The summary counts every element once and says "all uploaded" exactly when no save failed. */
  lemma SummaryFaithful(items: seq<Json>, save: (nat, Json) -> Result<Json, string>)
    ensures var rs := Outcomes(items, save);
            |Inserted(rs)| + |Failures(items, rs)| == |items| &&
            (SummaryBody(Inserted(rs), Failures(items, rs)).fields[2].value == JStr(AllUploaded) <==>
              forall i :: 0 <= i < |items| ==> save(i, items[i]).Ok?)
  {
    var rs := Outcomes(items, save);
    PartitionCount(items, rs);
    NoFailures(items, rs);
  }
}
