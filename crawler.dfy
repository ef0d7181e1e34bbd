/**
 * The crawler: `crawl` walks the catalog's course listing of every unit page
 * by page, rewrites each item's start time, and decides per course whether
 * to queue a detail crawl; `handleSqsCrawlEvent` takes the queued courses,
 * scrapes their detail pages and stores the course records.
 *
 * The catalog's listing and detail pages, the HTML extraction, the hash
 * function and the SQS send outcome are parameters (`CrawlEnv`, `DetailEnv`).
 */
module Crawler {
  import opened Wrappers
  import opened Text
  import opened CourseJson
  import opened Store
  import opened Seqs

  const HourMs: int := 3600000
  const DayMs: int := 86400000

  /** A listing response of exactly this many items is followed by another request. */
  const PageSize: nat := 100

  /** Why a crawl stopped with an exception. */
  datatype CrawlError =
    | NoDate           // `Alkuaika` is not a string holding `/Date(n)/`
    | BadCourseId      // `TapahtumaID` is not a number DynamoDB accepts
    | SendFailed       // the crawl-queue message could not be sent
    | DetailFetchFailed
    | BadName          // `Nimi` is not a string
    | BadStartTime     // `Alkuaika` is not a number
    | DeleteFailed     // the crawl-queue message could not be deleted

  datatype CrawlEnv = CrawlEnv(
    fetchListing: (string, int) -> Option<seq<Item>>,  // (unit_id, start) -> the JSON array; None when the request fails
    digest: Item -> string,                             // sha256 hex of JSON.stringify
    sendOk: CrawlJob -> bool,                           // whether sending this message succeeds
    nowMs: int)

  // ---------------------------------------------------------------------
  // One listing item
  // ---------------------------------------------------------------------

  /**
   * A listing item whose timestamp has been rewritten, with its start, its
   * `TapahtumaID` as sent (`rawId`) and the number that id denotes.
   */
  datatype ListingEntry = ListingEntry(courseId: int, rawId: Json, startMs: nat, item: Item)

  /** JavaScript truthiness of a JSON value. */
  predicate Truthy(v: Json) {
    match v
    case JNull => false
    case JBool(b) => b
    case JNum(n) => n != 0
    case JStr(s) => s != ""
  }

  /**
   * The course number of a `TapahtumaID` that `courseId.toString()` turns
   * into a key DynamoDB accepts: a JSON number, or a string that is the
   * decimal text of an integer. Anything else throws: `toString` of an
   * absent id, or a key that is no number.
   */
  function CourseIdOf(v: Json): Option<int> {
    match v
    case JNum(n) => Some(n)
    case JStr(s) =>
      (match ParseInt(s)
       case Some(n) => if IntText(n) == s then Some(n) else None
       case None => None)
    case _ => None
  }

  /**
   * An id is accepted exactly when it is a number or the text of one, and
   * its key is then the id's own text, as `toString` gives it.
   */
  lemma CourseIdOfSpec(v: Json, n: int)
    ensures CourseIdOf(v) == Some(n) <==> v == JNum(n) || v == JStr(IntText(n))
    ensures CourseIdOf(v) == Some(n) ==> Truthy(v) || v == JNum(0)
  {
    ParseIntOfIntText(n);
    if v.JStr? && CourseIdOf(v) == Some(n) {
      assert IntText(n) == v.s;
    }
    if v == JStr(IntText(n)) {
      assert |NatText(if n < 0 then -n else n)| >= 1;
    }
  }

  /**
   * The start of a listing item: `Alkuaika` must be a string holding
   * `/Date(n)/`; otherwise `match` yields null and indexing it throws.
   */
  function StartOf(raw: Item): Option<nat> {
    match Get(raw, "Alkuaika")
    case Some(JStr(s)) => FirstDate(s)
    case _ => None
  }

  /**
   * The item as the listing loop hands it on: `Alkuaika` replaced by the
   * whole seconds of the first `/Date(n)/`, everything else as sent.
   */
  function ParseListingItem(raw: Item): Result<ListingEntry, CrawlError> {
    match StartOf(raw)
    case None => Err(NoDate)
    case Some(ms) =>
      match Get(raw, "TapahtumaID")
      case None => Err(BadCourseId)
      case Some(v) =>
        match CourseIdOf(v)
        case None => Err(BadCourseId)
        case Some(id) => Ok(ListingEntry(id, v, ms, Put(raw, "Alkuaika", JNum(ms / 1000))))
  }

  /**
   * An item parses exactly when it has a `/Date(n)/` start and an id that
   * is a number or the text of one; a missing date is reported before a
   * bad id. The entry keeps the id as sent, and its key is that id's text.
   */
  lemma ParseListingItemCases(raw: Item)
    ensures ParseListingItem(raw).Ok? <==>
            StartOf(raw).Some? && Get(raw, "TapahtumaID").Some? && CourseIdOf(Get(raw, "TapahtumaID").value).Some?
    ensures StartOf(raw).None? ==> ParseListingItem(raw) == Err(NoDate)
    ensures StartOf(raw).Some? && !(Get(raw, "TapahtumaID").Some? && CourseIdOf(Get(raw, "TapahtumaID").value).Some?)
            ==> ParseListingItem(raw) == Err(BadCourseId)
    ensures ParseListingItem(raw).Ok? ==>
            var e := ParseListingItem(raw).value;
            e.startMs == StartOf(raw).value && Get(raw, "TapahtumaID") == Some(e.rawId)
            && (e.rawId == JNum(e.courseId) || e.rawId == JStr(CourseKeyOf(e.courseId)))
            && e.item == Put(raw, "Alkuaika", JNum(e.startMs / 1000))
  {
    if ParseListingItem(raw).Ok? {
      var e := ParseListingItem(raw).value;
      CourseIdOfSpec(e.rawId, e.courseId);
    }
  }

  /**
   * The rewritten item holds the whole seconds of the start in `Alkuaika`
   * and every other property as the catalog sent it.
   */
  lemma ListingItemRewrite(raw: Item)
    requires ParseListingItem(raw).Ok?
    ensures var e := ParseListingItem(raw).value;
            Get(e.item, "Alkuaika") == Some(JNum(e.startMs / 1000))
            && (forall k :: k != "Alkuaika" ==> Get(e.item, k) == Get(raw, k))
  {
    var e := ParseListingItem(raw).value;
    PutGet(raw, "Alkuaika", JNum(e.startMs / 1000));
  }

  // ---------------------------------------------------------------------
  // The re-crawl decision
  // ---------------------------------------------------------------------

  /** Integer division truncating toward zero, as moment's `absFloor` does. */
  function TruncDiv(a: int, b: int): int
    requires b > 0
  {
    if a >= 0 then a / b else -((-a) / b)
  }

  /** `moment(now).diff(moment(then), 'hours')`. */
  function HoursSince(nowMs: int, thenMs: int): int {
    TruncDiv(nowMs - thenMs, HourMs)
  }

  function Stored(courses: map<CourseKey, CourseItem>, key: CourseKey): Option<CourseItem> {
    if key in courses then Some(courses[key]) else None
  }

  /** Whether `updateCourseFromJson` pushes the course to the crawl queue. */
  predicate ShouldEnqueue(stored: Option<CourseItem>, hash: string, nowMs: int) {
    match stored
    case None => true
    case Some(c) =>
      if IsPending(c) then false
      else if c.jsonHash != Some(hash) then true
      else if c.lastCrawledAt.Some? then HoursSince(nowMs, c.lastCrawledAt.value) > 24
      else false
  }

  /**
   * The decision table: no record means crawl; a pending crawl is never
   * duplicated; a changed or missing hash means crawl; an unchanged one
   * means crawl only once 25 hours have passed since the last crawl.
   */
  lemma EnqueueDecision(stored: Option<CourseItem>, hash: string, nowMs: int)
    ensures stored.None? ==> ShouldEnqueue(stored, hash, nowMs)
    ensures stored.Some? && IsPending(stored.value) ==> !ShouldEnqueue(stored, hash, nowMs)
    ensures stored.Some? && !IsPending(stored.value) && stored.value.jsonHash != Some(hash)
            ==> ShouldEnqueue(stored, hash, nowMs)
    ensures stored.Some? && !IsPending(stored.value) && stored.value.jsonHash == Some(hash)
            ==> (ShouldEnqueue(stored, hash, nowMs) <==>
                 stored.value.lastCrawledAt.Some? && nowMs - stored.value.lastCrawledAt.value >= 25 * HourMs)
  {
    if stored.Some? && stored.value.lastCrawledAt.Some? {
      var d := nowMs - stored.value.lastCrawledAt.value;
      if d >= 0 {
        assert d / HourMs > 24 <==> d >= 25 * HourMs;
      } else {
        assert (-d) / HourMs >= 0;
      }
    }
  }

  /** The Courses table after `set CrawlPending = true` on `key`. */
  function MarkPending(courses: map<CourseKey, CourseItem>, key: CourseKey): map<CourseKey, CourseItem> {
    courses[key := if key in courses then courses[key].(crawlPending := Some(true)) else PendingStub(key)]
  }

  /** `pushToCrawl`: mark the course pending, then send one message. */
  method PushToCrawl(db: Store, env: CrawlEnv, courseId: int, item: Item) returns (sent: bool)
    modifies db`courses, db`crawlQueue
    ensures db.courses == MarkPending(old(db.courses), CourseKeyOf(courseId))
    ensures IsPending(db.courses[CourseKeyOf(courseId)])
    ensures forall k :: k in old(db.courses) && k != CourseKeyOf(courseId) ==> k in db.courses && db.courses[k] == old(db.courses)[k]
    ensures sent == env.sendOk(CrawlJob(courseId, item))
    ensures db.crawlQueue == old(db.crawlQueue) + (if sent then [CrawlJob(courseId, item)] else [])
  {
    db.courses := MarkPending(db.courses, CourseKeyOf(courseId));
    var job := CrawlJob(courseId, item);
    sent := env.sendOk(job);
    if sent {
      db.crawlQueue := db.crawlQueue + [job];
    }
  }

  /** `updateCourseFromJson`; `ok` is false when the send threw. */
  method UpdateCourseFromJson(db: Store, env: CrawlEnv, courseId: int, item: Item) returns (ok: bool)
    modifies db`courses, db`crawlQueue
    ensures var key := CourseKeyOf(courseId);
            var job := CrawlJob(courseId, item);
            if ShouldEnqueue(Stored(old(db.courses), key), CourseJsonHash(item, env.digest), env.nowMs) then
              db.courses == MarkPending(old(db.courses), key)
              && ok == env.sendOk(job)
              && db.crawlQueue == old(db.crawlQueue) + (if ok then [job] else [])
            else
              db.courses == old(db.courses) && db.crawlQueue == old(db.crawlQueue) && ok
  {
    var jsonHash := CourseJsonHash(item, env.digest);
    var key := CourseKeyOf(courseId);
    if key in db.courses {
      var found := db.courses[key];
      if IsPending(found) {
        ok := true;
      } else if found.jsonHash != Some(jsonHash) {
        ok := PushToCrawl(db, env, courseId, item);
      } else if found.lastCrawledAt.Some? {
        if HoursSince(env.nowMs, found.lastCrawledAt.value) > 24 {
          ok := PushToCrawl(db, env, courseId, item);
        } else {
          ok := true;
        }
      } else {
        ok := true;
      }
    } else {
      ok := PushToCrawl(db, env, courseId, item);
    }
  }

  // ---------------------------------------------------------------------
  // The listing loop over one page, as a specification
  // ---------------------------------------------------------------------

  /** What the listing loop has done so far, and the exception that stopped it. */
  datatype Progress = Progress(courses: map<CourseKey, CourseItem>, sent: seq<CrawlJob>, failure: Option<CrawlError>)

  function Start(courses: map<CourseKey, CourseItem>): Progress {
    Progress(courses, [], None)
  }

  /** One turn of the loop body: rewrite the item, then `updateCourseFromJson`. */
  function StepItem(env: CrawlEnv, p: Progress, raw: Item): Progress
    requires p.failure.None?
  {
    match ParseListingItem(raw)
    case Err(e) => p.(failure := Some(e))
    case Ok(e) =>
      var key := CourseKeyOf(e.courseId);
      if !ShouldEnqueue(Stored(p.courses, key), CourseJsonHash(e.item, env.digest), env.nowMs) then p
      else
        var job := CrawlJob(e.courseId, e.item);
        if env.sendOk(job) then Progress(MarkPending(p.courses, key), p.sent + [job], None)
        else Progress(MarkPending(p.courses, key), p.sent, Some(SendFailed))
  }

  /** The loop over `items`, stopping at the first exception. */
  function StepItems(env: CrawlEnv, p: Progress, items: seq<Item>): (r: Progress)
    ensures p.failure.Some? ==> r == p
    decreases |items|
  {
    if items == [] then p
    else
      var q := StepItems(env, p, items[..|items| - 1]);
      if q.failure.Some? then q else StepItem(env, q, items[|items| - 1])
  }

  /** Every item of the page parses. */
  predicate AllParse(items: seq<Item>) {
    items == [] || (AllParse(items[..|items| - 1]) && ParseListingItem(items[|items| - 1]).Ok?)
  }

  /** The entries of a page every item of which parses, in page order. */
  function Entries(items: seq<Item>): (es: seq<ListingEntry>)
    requires AllParse(items)
    ensures |es| == |items|
  {
    if items == [] then []
    else Entries(items[..|items| - 1]) + [ParseListingItem(items[|items| - 1]).value]
  }

  /** The entries are the items' parses, position by position. */
  lemma {:induction false} EntriesParse(items: seq<Item>)
    requires AllParse(items)
    ensures forall i :: 0 <= i < |items| ==> ParseListingItem(items[i]) == Ok(Entries(items)[i])
  {
    if items != [] {
      var prefix := items[..|items| - 1];
      EntriesParse(prefix);
      assert forall i :: 0 <= i < |prefix| ==> items[i] == prefix[i];
    }
  }

  /** A loop that ran through without an exception parsed every item. */
  lemma {:induction false} StepItemsParsed(env: CrawlEnv, p: Progress, items: seq<Item>)
    requires p.failure.None?
    requires StepItems(env, p, items).failure.None?
    ensures AllParse(items)
    decreases |items|
  {
    if items != [] {
      var prefix := items[..|items| - 1];
      var q := StepItems(env, p, prefix);
      assert q.failure.None?;
      StepItemsParsed(env, p, prefix);
      StepItemParses(env, q, items[|items| - 1]);
    }
  }

  lemma StepItemParses(env: CrawlEnv, p: Progress, raw: Item)
    requires p.failure.None? && StepItem(env, p, raw).failure.None?
    ensures ParseListingItem(raw).Ok?
  {
  }

  /** The last truthy `TapahtumaID` of the page, as sent (the number 0 is falsy). */
  function LastIdOf(es: seq<ListingEntry>): Option<Json> {
    if es == [] then None
    else if Truthy(es[|es| - 1].rawId) then Some(es[|es| - 1].rawId)
    else LastIdOf(es[..|es| - 1])
  }

  /**
   * `loopLastCourseId` is the id of the last entry with a truthy id, or
   * undefined when every id is falsy.
   */
  lemma {:induction false} LastIdOfSpec(es: seq<ListingEntry>)
    ensures LastIdOf(es).None? ==> forall i :: 0 <= i < |es| ==> !Truthy(es[i].rawId)
    ensures LastIdOf(es).Some? ==> exists i :: 0 <= i < |es| && es[i].rawId == LastIdOf(es).value && Truthy(es[i].rawId)
                                     && forall j :: i < j < |es| ==> !Truthy(es[j].rawId)
  {
    if es != [] && Truthy(es[|es| - 1].rawId) {
      assert LastIdOf(es) == Some(es[|es| - 1].rawId);
      assert es[|es| - 1].rawId == LastIdOf(es).value;
    } else if es != [] {
      var prefix := es[..|es| - 1];
      assert LastIdOf(es) == LastIdOf(prefix);
      LastIdOfSpec(prefix);
      assert forall i :: 0 <= i < |prefix| ==> es[i] == prefix[i];
      if LastIdOf(prefix).Some? {
        var i :| 0 <= i < |prefix| && prefix[i].rawId == LastIdOf(prefix).value && Truthy(prefix[i].rawId)
                 && forall j :: i < j < |prefix| ==> !Truthy(prefix[j].rawId);
        assert es[i].rawId == LastIdOf(es).value;
      }
    }
  }

  // ---------------------------------------------------------------------
  // What the crawl promises about the table and the queue
  // ---------------------------------------------------------------------

  /**
   * Relative to the table `start`: no record is removed and no pending flag
   * is cleared; every message sent is for a course now pending that was not
   * pending at `start`; no two messages are for the same course.
   */
  ghost predicate Fresh(start: map<CourseKey, CourseItem>, courses: map<CourseKey, CourseItem>, sent: seq<CrawlJob>) {
    && (forall k :: k in start ==> k in courses)
    && (forall k :: k in start && IsPending(start[k]) ==> k in courses && IsPending(courses[k]))
    && (forall j :: 0 <= j < |sent| ==>
          CourseKeyOf(sent[j].courseId) in courses && IsPending(courses[CourseKeyOf(sent[j].courseId)])
          && !(CourseKeyOf(sent[j].courseId) in start && IsPending(start[CourseKeyOf(sent[j].courseId)])))
    && (forall i, j :: 0 <= i < j < |sent| ==> CourseKeyOf(sent[i].courseId) != CourseKeyOf(sent[j].courseId))
  }

  /** Marking a course that is not pending, and sending its message, keeps freshness. */
  lemma MarkPendingFresh(start: map<CourseKey, CourseItem>, courses: map<CourseKey, CourseItem>,
                         sent: seq<CrawlJob>, job: CrawlJob)
    requires Fresh(start, courses, sent)
    requires var key := CourseKeyOf(job.courseId); !(key in courses && IsPending(courses[key]))
    ensures Fresh(start, MarkPending(courses, CourseKeyOf(job.courseId)), sent)
    ensures Fresh(start, MarkPending(courses, CourseKeyOf(job.courseId)), sent + [job])
  {
    var key := CourseKeyOf(job.courseId);
    var m := MarkPending(courses, key);
    assert forall k :: k in courses ==> k in m && (k != key ==> m[k] == courses[k]);
    assert !(key in start && IsPending(start[key]));
    assert forall j :: 0 <= j < |sent| ==> CourseKeyOf(sent[j].courseId) != key;
  }

  lemma StepItemFresh(env: CrawlEnv, start: map<CourseKey, CourseItem>, p: Progress, raw: Item)
    requires p.failure.None? && Fresh(start, p.courses, p.sent)
    ensures Fresh(start, StepItem(env, p, raw).courses, StepItem(env, p, raw).sent)
  {
    var r := ParseListingItem(raw);
    if r.Ok? {
      var e := r.value;
      var key := CourseKeyOf(e.courseId);
      if ShouldEnqueue(Stored(p.courses, key), CourseJsonHash(e.item, env.digest), env.nowMs) {
        MarkPendingFresh(start, p.courses, p.sent, CrawlJob(e.courseId, e.item));
      }
    }
  }

  lemma {:induction false} StepItemsFresh(env: CrawlEnv, start: map<CourseKey, CourseItem>, p: Progress, items: seq<Item>)
    requires p.failure.None? && Fresh(start, p.courses, p.sent)
    ensures Fresh(start, StepItems(env, p, items).courses, StepItems(env, p, items).sent)
    decreases |items|
  {
    if items != [] {
      var q := StepItems(env, p, items[..|items| - 1]);
      StepItemsFresh(env, start, p, items[..|items| - 1]);
      if q.failure.None? {
        StepItemFresh(env, start, q, items[|items| - 1]);
      }
    }
  }

  /** The loop only appends messages. */
  lemma {:induction false} StepItemsAppends(env: CrawlEnv, p: Progress, items: seq<Item>)
    ensures |p.sent| <= |StepItems(env, p, items).sent|
    ensures StepItems(env, p, items).sent[..|p.sent|] == p.sent
    decreases |items|
  {
    if items != [] {
      StepItemsAppends(env, p, items[..|items| - 1]);
    }
  }

  /** Freshness composes: two stretches of crawling make one. */
  lemma FreshCompose(a: map<CourseKey, CourseItem>, b: map<CourseKey, CourseItem>, c: map<CourseKey, CourseItem>,
                     s1: seq<CrawlJob>, s2: seq<CrawlJob>)
    requires Fresh(a, b, s1) && Fresh(b, c, s2)
    ensures Fresh(a, c, s1 + s2)
  {
    var s := s1 + s2;
    forall i, j | 0 <= i < j < |s| ensures CourseKeyOf(s[i].courseId) != CourseKeyOf(s[j].courseId) {
      if j >= |s1| && i < |s1| {
        assert s[i] == s1[i] && s[j] == s2[j - |s1|];
      }
    }
  }

  /**
   * A course whose message could not be sent stays pending, so every later
   * listing of it, in this crawl or the next, is skipped.
   */
  lemma FailedSendStaysPending(env: CrawlEnv, p: Progress, raw: Item, later: Item)
    requires p.failure.None?
    requires StepItem(env, p, raw).failure == Some(SendFailed)
    ensures ParseListingItem(raw).Ok?
    ensures var key := CourseKeyOf(ParseListingItem(raw).value.courseId);
            var q := StepItem(env, p, raw);
            key in q.courses && IsPending(q.courses[key])
            && (ParseListingItem(later).Ok? && CourseKeyOf(ParseListingItem(later).value.courseId) == key
                ==> StepItem(env, Start(q.courses), later) == Start(q.courses))
  {
  }

  /** Once the loop has stopped, the remaining items change nothing. */
  lemma {:induction false} StepItemsStops(env: CrawlEnv, p: Progress, items: seq<Item>, i: nat)
    requires i <= |items|
    requires StepItems(env, p, items[..i]).failure.Some?
    ensures StepItems(env, p, items) == StepItems(env, p, items[..i])
    decreases |items|
  {
    if i < |items| {
      var prefix := items[..|items| - 1];
      assert prefix[..i] == items[..i];
      StepItemsStops(env, p, prefix, i);
    } else {
      assert items[..i] == items;
    }
  }

  // ---------------------------------------------------------------------
  // Pagination
  // ---------------------------------------------------------------------

  /** One listing request: the unit, the start date, and the previous page's last id. */
  datatype ListingRequest = ListingRequest(unitId: string, startMs: int, lastCourseId: Option<Json>)

  /** `crawlCourseListing(unitId, moment(), undefined)`. */
  function FirstRequest(unitId: string, nowMs: int): ListingRequest {
    ListingRequest(unitId, nowMs, None)
  }

  /**
   * The request after a fully processed page: only a page of exactly 100
   * items is followed; the next one starts at the last item's date, or a day
   * later when the page ended on the same id as the previous page.
   */
  function NextRequest(req: ListingRequest, es: seq<ListingEntry>): (r: Option<ListingRequest>)
    ensures r.Some? <==> |es| == PageSize
    ensures r.Some? ==> r.value.unitId == req.unitId && r.value.lastCourseId == LastIdOf(es)
    ensures r.Some? && LastIdOf(es) != req.lastCourseId ==> r.value.startMs == es[|es| - 1].startMs
    ensures r.Some? && LastIdOf(es) == req.lastCourseId ==> r.value.startMs == es[|es| - 1].startMs + DayMs
  {
    if |es| == PageSize then
      var lastMs := es[|es| - 1].startMs;
      var lastId := LastIdOf(es);
      Some(ListingRequest(req.unitId, if lastId == req.lastCourseId then lastMs + DayMs else lastMs, lastId))
    else None
  }

  /**
   * The request that follows the one answering `req`: there is one only
   * when the fetch succeeds, every item parses and the page is full.
   */
  ghost function PageNext(env: CrawlEnv, req: ListingRequest): Option<ListingRequest> {
    match env.fetchListing(req.unitId, req.startMs)
    case None => None
    case Some(items) => if AllParse(items) then NextRequest(req, Entries(items)) else None
  }

  /** The catalog ends the chain of listing requests that starts at `req` within `n` requests. */
  ghost predicate ListingEnds(env: CrawlEnv, req: ListingRequest, n: nat)
    decreases n
  {
    n > 0 && (PageNext(env, req).None? || ListingEnds(env, PageNext(env, req).value, n - 1))
  }

  datatype ListingOutcome = Finished | FetchFailed | Aborted(error: CrawlError)

  /** Each request of `rs` follows a full page answering the one before. */
  ghost predicate IsChain(env: CrawlEnv, rs: seq<ListingRequest>) {
    forall k :: 0 <= k < |rs| - 1 ==> PageNext(env, rs[k]) == Some(rs[k + 1])
  }

  lemma ChainCons(env: CrawlEnv, req: ListingRequest, rest: seq<ListingRequest>)
    requires |rest| >= 1 && IsChain(env, rest) && PageNext(env, req) == Some(rest[0])
    ensures IsChain(env, [req] + rest)
  {
    var rs := [req] + rest;
    forall k | 0 <= k < |rs| - 1 ensures PageNext(env, rs[k]) == Some(rs[k + 1]) {
      if k > 0 {
        assert rs[k] == rest[k - 1] && rs[k + 1] == rest[k];
      }
    }
  }

  /** The loop over one more item. */
  lemma StepItemsSnoc(env: CrawlEnv, p: Progress, items: seq<Item>, i: nat)
    requires i < |items|
    requires StepItems(env, p, items[..i]).failure.None?
    ensures StepItems(env, p, items[..i + 1]) == StepItem(env, StepItems(env, p, items[..i]), items[i])
  {
    assert items[..i + 1][..i] == items[..i];
  }

  /** The next request as the loop's variables give it. */
  lemma NextFromLoop(req: ListingRequest, es: seq<ListingEntry>, lastDate: Option<nat>, loopLastCourseId: Option<Json>)
    requires |es| == PageSize && loopLastCourseId == LastIdOf(es) && lastDate == Some(es[|es| - 1].startMs)
    ensures NextRequest(req, es) == Some(ListingRequest(req.unitId,
              if loopLastCourseId == req.lastCourseId then lastDate.value + DayMs else lastDate.value, loopLastCourseId))
  {
  }

  /**
   * One turn of the `for` loop: rewrite the item's start, read its id, and
   * `updateCourseFromJson`; `e` is the parsed entry when nothing threw.
   */
  method ProcessListingItem(db: Store, env: CrawlEnv, raw: Item, ghost p: Progress, ghost queue0: seq<CrawlJob>)
    returns (failure: Option<CrawlError>, e: ListingEntry)
    requires p.failure.None? && db.courses == p.courses && db.crawlQueue == queue0 + p.sent
    modifies db`courses, db`crawlQueue
    ensures var q := StepItem(env, p, raw);
            db.courses == q.courses && db.crawlQueue == queue0 + q.sent && failure == q.failure
    ensures failure.None? ==> ParseListingItem(raw) == Ok(e)
  {
    var parsed := ParseListingItem(raw);
    if parsed.Err? {
      return Some(parsed.error), ListingEntry(0, JNull, 0, raw);
    }
    e := parsed.value;
    var ok := UpdateCourseFromJson(db, env, e.courseId, e.item);
    failure := if ok then None else Some(SendFailed);
  }

  /** The entries of one more item, and the last nonzero id among them. */
  lemma EntriesSnoc(items: seq<Item>, i: nat)
    requires i < |items| && AllParse(items[..i]) && ParseListingItem(items[i]).Ok?
    ensures AllParse(items[..i + 1])
    ensures var e := ParseListingItem(items[i]).value;
            Entries(items[..i + 1]) == Entries(items[..i]) + [e]
            && LastIdOf(Entries(items[..i + 1])) == if Truthy(e.rawId) then Some(e.rawId) else LastIdOf(Entries(items[..i]))
  {
    assert items[..i + 1][..i] == items[..i];
    var es := Entries(items[..i]);
    var e := ParseListingItem(items[i]).value;
    assert (es + [e])[..|es|] == es;
  }

  /** The `for` loop of `crawlCourseListing` over the items of one page. */
  method ProcessListingItems(db: Store, env: CrawlEnv, responseData: seq<Item>)
    returns (failure: Option<CrawlError>, lastDate: Option<nat>, loopLastCourseId: Option<Json>)
    modifies db`courses, db`crawlQueue
    ensures var p := StepItems(env, Start(old(db.courses)), responseData);
            db.courses == p.courses && db.crawlQueue == old(db.crawlQueue) + p.sent && failure == p.failure
    ensures failure.None? ==> AllParse(responseData) && loopLastCourseId == LastIdOf(Entries(responseData))
    ensures failure.None? && responseData != [] ==> lastDate == Some(Entries(responseData)[|responseData| - 1].startMs)
  {
    ghost var courses0 := db.courses;
    ghost var queue0 := db.crawlQueue;
    assert responseData[..0] == [];
    lastDate, loopLastCourseId := None, None;
    var i := 0;
    while i < |responseData|
      invariant 0 <= i <= |responseData|
      invariant StepItems(env, Start(courses0), responseData[..i]).failure.None?
      invariant db.courses == StepItems(env, Start(courses0), responseData[..i]).courses
      invariant db.crawlQueue == queue0 + StepItems(env, Start(courses0), responseData[..i]).sent
      invariant AllParse(responseData[..i])
      invariant i > 0 ==> lastDate == Some(Entries(responseData[..i])[i - 1].startMs)
      invariant loopLastCourseId == LastIdOf(Entries(responseData[..i]))
    {
      ghost var q := StepItems(env, Start(courses0), responseData[..i]);
      StepItemsSnoc(env, Start(courses0), responseData, i);
      var e;
      failure, e := ProcessListingItem(db, env, responseData[i], q, queue0);
      if failure.Some? {
        StepItemsStops(env, Start(courses0), responseData, i + 1);
        return;
      }
      EntriesSnoc(responseData, i);
      lastDate := Some(e.startMs);
      loopLastCourseId := if Truthy(e.rawId) then Some(e.rawId) else loopLastCourseId;
      i := i + 1;
    }
    assert responseData[..i] == responseData;
    failure := None;
  }

  // ---------------------------------------------------------------------
  // The listing crawl, as a specification
  // ---------------------------------------------------------------------

  /** What a listing crawl did: the table, the messages sent in order, and how it ended. */
  datatype ListingRun = ListingRun(courses: map<CourseKey, CourseItem>, sent: seq<CrawlJob>, outcome: ListingOutcome)

  /**
   * The crawl of the chain of listing pages that starts at `req`: a failed
   * fetch ends it quietly, an exception in a page's loop ends it with that
   * exception, and a full page is followed by the next request.
   */
  ghost function RunListing(env: CrawlEnv, courses: map<CourseKey, CourseItem>, req: ListingRequest, n: nat): ListingRun
    requires ListingEnds(env, req, n)
    decreases n
  {
    match env.fetchListing(req.unitId, req.startMs)
    case None => ListingRun(courses, [], FetchFailed)
    case Some(items) =>
      var p := StepItems(env, Start(courses), items);
      if p.failure.Some? then ListingRun(p.courses, p.sent, Aborted(p.failure.value))
      else if PageNext(env, req).None? then ListingRun(p.courses, p.sent, Finished)
      else
        var rest := RunListing(env, p.courses, PageNext(env, req).value, n - 1);
        ListingRun(rest.courses, p.sent + rest.sent, rest.outcome)
  }

  /** The loop over a page only marks courses pending and sends fresh, distinct messages. */
  lemma PageFresh(env: CrawlEnv, courses: map<CourseKey, CourseItem>, items: seq<Item>)
    ensures var p := StepItems(env, Start(courses), items); Fresh(courses, p.courses, p.sent)
  {
    assert Fresh(courses, courses, []);
    StepItemsFresh(env, courses, Start(courses), items);
  }

  /**
   * A whole listing crawl only marks courses pending and sends fresh
   * messages: no course is queued twice, and none that was pending before.
   */
  lemma {:induction false} RunListingFresh(env: CrawlEnv, courses: map<CourseKey, CourseItem>, req: ListingRequest, n: nat)
    requires ListingEnds(env, req, n)
    ensures var r := RunListing(env, courses, req, n); Fresh(courses, r.courses, r.sent)
    decreases n
  {
    match env.fetchListing(req.unitId, req.startMs)
    case None =>
      assert Fresh(courses, courses, []);
    case Some(items) =>
      var p := StepItems(env, Start(courses), items);
      PageFresh(env, courses, items);
      if p.failure.None? && PageNext(env, req).Some? {
        var next := PageNext(env, req).value;
        RunListingFresh(env, p.courses, next, n - 1);
        var rest := RunListing(env, p.courses, next, n - 1);
        FreshCompose(courses, p.courses, rest.courses, p.sent, rest.sent);
      }
  }

  /** The loop over a page stops only at a bad date, a bad id, or a failed send. */
  lemma {:induction false} StepItemsErrors(env: CrawlEnv, p: Progress, items: seq<Item>)
    requires p.failure.None?
    ensures StepItems(env, p, items).failure in {None, Some(NoDate), Some(BadCourseId), Some(SendFailed)}
    decreases |items|
  {
    if items != [] {
      StepItemsErrors(env, p, items[..|items| - 1]);
    }
  }

  /** A listing crawl is aborted only by a bad date, a bad id, or a failed send. */
  lemma {:induction false} RunListingErrors(env: CrawlEnv, courses: map<CourseKey, CourseItem>, req: ListingRequest, n: nat)
    requires ListingEnds(env, req, n)
    ensures RunListing(env, courses, req, n).outcome in {Finished, FetchFailed, Aborted(NoDate), Aborted(BadCourseId), Aborted(SendFailed)}
    decreases n
  {
    match env.fetchListing(req.unitId, req.startMs)
    case None =>
    case Some(items) =>
      var p := StepItems(env, Start(courses), items);
      StepItemsErrors(env, Start(courses), items);
      if p.failure.None? && PageNext(env, req).Some? {
        RunListingErrors(env, p.courses, PageNext(env, req).value, n - 1);
      }
  }

  /**
   * The requests of a listing crawl start at `req`, stay with its unit, and
   * each follows a full page answering the one before; the last one's fetch
   * failed exactly when the crawl ended on a failed fetch, and a crawl that
   * finished ended on a page of other than 100 items.
   */
  ghost predicate ListingChain(env: CrawlEnv, req: ListingRequest, requests: seq<ListingRequest>, outcome: ListingOutcome) {
    |requests| >= 1 && requests[0] == req
    && (forall k :: 0 <= k < |requests| ==> requests[k].unitId == req.unitId)
    && IsChain(env, requests)
    && var last := requests[|requests| - 1];
       var page := env.fetchListing(last.unitId, last.startMs);
       (outcome == FetchFailed <==> page.None?)
       && (outcome == Finished ==> page.Some? && AllParse(page.value) && |page.value| != PageSize)
  }

  /**
   * `crawlCourseListing`: fetch one page, process its items, then follow
   * with the next page if any. The table, the queue and the outcome are
   * those of `RunListing`; the requests made start at `req`, stay with its
   * unit, and each follows a full page of the one before.
   */
  method CrawlCourseListing(db: Store, env: CrawlEnv, req: ListingRequest, ghost n: nat)
    returns (outcome: ListingOutcome, ghost requests: seq<ListingRequest>)
    requires ListingEnds(env, req, n)
    modifies db`courses, db`crawlQueue
    ensures var r := RunListing(env, old(db.courses), req, n);
            db.courses == r.courses && db.crawlQueue == old(db.crawlQueue) + r.sent && outcome == r.outcome
    ensures ListingChain(env, req, requests, outcome)
    decreases n, 1
  {
    ghost var queue0 := db.crawlQueue;
    var response := env.fetchListing(req.unitId, req.startMs);
    if response.None? {
      assert queue0 + [] == queue0;
      return FetchFailed, [req];
    }
    var responseData := response.value;
    var failure, lastDate, loopLastCourseId := ProcessListingItems(db, env, responseData);
    if failure.Some? {
      return Aborted(failure.value), [req];
    }
    if |responseData| == PageSize {
      ghost var p := StepItems(env, Start(old(db.courses)), responseData);
      outcome, requests := FollowNextPage(db, env, req, responseData, lastDate, loopLastCourseId, n);
      AppendAssoc(queue0, p.sent, RunListing(env, p.courses, PageNext(env, req).value, n - 1).sent);
    } else {
      assert |Entries(responseData)| != PageSize;
      outcome, requests := Finished, [req];
    }
  }

  /**
   * The recursive call of `crawlCourseListing` after a full page: the next
   * start is the last item's date, a day later when the page ended on the
   * same id as the previous one.
   */
  method FollowNextPage(db: Store, env: CrawlEnv, req: ListingRequest, responseData: seq<Item>,
                        lastDate: Option<nat>, loopLastCourseId: Option<Json>, ghost n: nat)
    returns (outcome: ListingOutcome, ghost requests: seq<ListingRequest>)
    requires ListingEnds(env, req, n)
    requires env.fetchListing(req.unitId, req.startMs) == Some(responseData)
    requires AllParse(responseData) && |responseData| == PageSize
    requires lastDate == Some(Entries(responseData)[|responseData| - 1].startMs)
    requires loopLastCourseId == LastIdOf(Entries(responseData))
    modifies db`courses, db`crawlQueue
    ensures PageNext(env, req).Some? && n >= 1
    ensures var r := RunListing(env, old(db.courses), PageNext(env, req).value, n - 1);
            db.courses == r.courses && db.crawlQueue == old(db.crawlQueue) + r.sent && outcome == r.outcome
    ensures |requests| >= 2 && ListingChain(env, req, requests, outcome)
    decreases n, 0
  {
    var nextCrawlDate: int := lastDate.value;
    if loopLastCourseId == req.lastCourseId {
      nextCrawlDate := nextCrawlDate + DayMs;
    }
    var next := ListingRequest(req.unitId, nextCrawlDate, loopLastCourseId);
    NextFromLoop(req, Entries(responseData), lastDate, loopLastCourseId);
    assert PageNext(env, req) == Some(next);
    ghost var rest;
    outcome, rest := CrawlCourseListing(db, env, next, n - 1);
    requests := [req] + rest;
    ChainCons(env, req, rest);
    assert requests[|requests| - 1] == rest[|rest| - 1];
    assert forall k :: 1 <= k < |requests| ==> requests[k] == rest[k - 1];
  }

  // ---------------------------------------------------------------------
  // The crawl over every unit
  // ---------------------------------------------------------------------

  /** The unit ids `crawl` lists. */
  const Units: seq<int> := [1, 2, 3, 5, 10, 8, 7, 22, 15, 11, 12, 21, 4, 6, 9, 18, 20, 19, 17, 16]

  /** What `for (const unitId in units)` visits: the array's indices, as strings. */
  function IndexUnitIds(): (ids: seq<string>)
    ensures |ids| == |Units|
  {
    seq(|Units|, i requires 0 <= i => NatText(i))
  }

  /** The unit ids themselves, as the query string renders them. */
  function ListedUnitIds(): (ids: seq<string>)
    ensures |ids| == |Units|
  {
    seq(|Units|, i requires 0 <= i < |Units| => IntText(Units[i]))
  }

  /** The listing that starts at `req` ends after finitely many full pages. */
  ghost predicate ListingTerminates(env: CrawlEnv, req: ListingRequest) {
    exists n :: ListingEnds(env, req, n)
  }

  /** The listing of every unit, from `now`, ends. */
  ghost predicate AllTerminate(env: CrawlEnv, unitIds: seq<string>) {
    forall i :: 0 <= i < |unitIds| ==> ListingTerminates(env, FirstRequest(unitIds[i], env.nowMs))
  }

  lemma AllTerminatePrefix(env: CrawlEnv, unitIds: seq<string>, i: nat)
    requires AllTerminate(env, unitIds) && i <= |unitIds|
    ensures AllTerminate(env, unitIds[..i])
  {
    assert forall k :: 0 <= k < i ==> unitIds[..i][k] == unitIds[k];
  }

  /** A number of requests within which a terminating listing ends. */
  ghost function EndsWithin(env: CrawlEnv, req: ListingRequest): (n: nat)
    requires ListingTerminates(env, req)
    ensures ListingEnds(env, req, n)
  {
    var n :| ListingEnds(env, req, n); n
  }

  /** What a crawl over units did: the table, the messages sent in order, and the exception that ended it. */
  datatype CrawlRun = CrawlRun(courses: map<CourseKey, CourseItem>, sent: seq<CrawlJob>, failure: Option<CrawlError>)

  /**
   * The units' listings crawled one after another from `now`: a fetch that
   * fails moves on to the next unit, an exception ends the whole crawl.
   */
  ghost function RunUnits(env: CrawlEnv, courses: map<CourseKey, CourseItem>, unitIds: seq<string>): CrawlRun
    requires AllTerminate(env, unitIds)
    decreases |unitIds|
  {
    if unitIds == [] then CrawlRun(courses, [], None)
    else
      AllTerminatePrefix(env, unitIds, |unitIds| - 1);
      var q := RunUnits(env, courses, unitIds[..|unitIds| - 1]);
      if q.failure.Some? then q
      else
        var req := FirstRequest(unitIds[|unitIds| - 1], env.nowMs);
        var r := RunListing(env, q.courses, req, EndsWithin(env, req));
        CrawlRun(r.courses, q.sent + r.sent, if r.outcome.Aborted? then Some(r.outcome.error) else None)
  }

  /**
   * The whole crawl only marks courses pending and sends fresh messages: no
   * course is queued twice in one crawl, and none that was pending before.
   */
  lemma {:induction false} RunUnitsFresh(env: CrawlEnv, courses: map<CourseKey, CourseItem>, unitIds: seq<string>)
    requires AllTerminate(env, unitIds)
    ensures var r := RunUnits(env, courses, unitIds); Fresh(courses, r.courses, r.sent)
    decreases |unitIds|
  {
    if unitIds == [] {
      assert Fresh(courses, courses, []);
    } else {
      var prefix := unitIds[..|unitIds| - 1];
      AllTerminatePrefix(env, unitIds, |prefix|);
      var q := RunUnits(env, courses, prefix);
      RunUnitsFresh(env, courses, prefix);
      if q.failure.None? {
        var req := FirstRequest(unitIds[|unitIds| - 1], env.nowMs);
        var r := RunListing(env, q.courses, req, EndsWithin(env, req));
        RunListingFresh(env, q.courses, req, EndsWithin(env, req));
        FreshCompose(courses, q.courses, r.courses, q.sent, r.sent);
      }
    }
  }

  /** Once a unit's listing has thrown, the later units are not crawled. */
  lemma {:induction false} RunUnitsStops(env: CrawlEnv, courses: map<CourseKey, CourseItem>, unitIds: seq<string>, i: nat)
    requires AllTerminate(env, unitIds) && i <= |unitIds|
    requires AllTerminate(env, unitIds[..i]) && RunUnits(env, courses, unitIds[..i]).failure.Some?
    ensures RunUnits(env, courses, unitIds) == RunUnits(env, courses, unitIds[..i])
    decreases |unitIds|
  {
    if i < |unitIds| {
      var prefix := unitIds[..|unitIds| - 1];
      assert prefix[..i] == unitIds[..i];
      AllTerminatePrefix(env, unitIds, |prefix|);
      RunUnitsStops(env, courses, prefix, i);
    } else {
      assert unitIds[..i] == unitIds;
    }
  }

  /**
   * `requests[k]` is a chain of listing requests for `unitIds[k]` that
   * starts at its first request.
   */
  ghost predicate UnitChains(env: CrawlEnv, unitIds: seq<string>, requests: seq<seq<ListingRequest>>) {
    |requests| <= |unitIds|
    && forall k :: 0 <= k < |requests| ==>
         |requests[k]| >= 1 && requests[k][0] == FirstRequest(unitIds[k], env.nowMs) && IsChain(env, requests[k])
         && forall j :: 0 <= j < |requests[k]| ==> requests[k][j].unitId == unitIds[k]
  }

  lemma UnitChainsSnoc(env: CrawlEnv, unitIds: seq<string>, requests: seq<seq<ListingRequest>>, rs: seq<ListingRequest>,
                       outcome: ListingOutcome)
    requires UnitChains(env, unitIds, requests) && |requests| < |unitIds|
    requires ListingChain(env, FirstRequest(unitIds[|requests|], env.nowMs), rs, outcome)
    ensures UnitChains(env, unitIds, requests + [rs])
  {
    var r := requests + [rs];
    assert forall k :: 0 <= k < |requests| ==> r[k] == requests[k];
  }

  /**
   * The units' listings crawled in order, with the table, the queue and the
   * exception of `RunUnits`; `requests[k]` are the requests made for
   * `unitIds[k]`.
   */
  method CrawlUnits(db: Store, env: CrawlEnv, unitIds: seq<string>)
    returns (failure: Option<CrawlError>, ghost requests: seq<seq<ListingRequest>>)
    requires AllTerminate(env, unitIds)
    modifies db`courses, db`crawlQueue
    ensures var r := RunUnits(env, old(db.courses), unitIds);
            db.courses == r.courses && db.crawlQueue == old(db.crawlQueue) + r.sent && failure == r.failure
    ensures |requests| <= |unitIds|
    ensures failure.None? ==> |requests| == |unitIds|
    ensures failure.Some? ==> |requests| >= 1
    ensures UnitChains(env, unitIds, requests)
  {
    ghost var courses0, queue0 := db.courses, db.crawlQueue;
    assert unitIds[..0] == [];
    assert queue0 + [] == queue0;
    failure, requests := None, [];
    var i := 0;
    while i < |unitIds|
      invariant 0 <= i <= |unitIds| && |requests| == i
      invariant AllTerminate(env, unitIds[..i])
      invariant RunUnits(env, courses0, unitIds[..i]).failure.None?
      invariant db.courses == RunUnits(env, courses0, unitIds[..i]).courses
      invariant db.crawlQueue == queue0 + RunUnits(env, courses0, unitIds[..i]).sent
      invariant UnitChains(env, unitIds, requests)
    {
      var outcome, rs := CrawlNextUnit(db, env, unitIds, i, courses0, queue0);
      UnitChainsSnoc(env, unitIds, requests, rs, outcome);
      requests := requests + [rs];
      if outcome.Aborted? {
        RunUnitsStops(env, courses0, unitIds, i + 1);
        return Some(outcome.error), requests;
      }
      i := i + 1;
    }
    assert unitIds[..i] == unitIds;
  }

  /** One turn of `crawl`'s loop: the listing of unit `i`, continuing `RunUnits` by one unit. */
  method CrawlNextUnit(db: Store, env: CrawlEnv, unitIds: seq<string>, i: nat,
                       ghost courses0: map<CourseKey, CourseItem>, ghost queue0: seq<CrawlJob>)
    returns (outcome: ListingOutcome, ghost rs: seq<ListingRequest>)
    requires AllTerminate(env, unitIds) && i < |unitIds|
    requires AllTerminate(env, unitIds[..i]) && RunUnits(env, courses0, unitIds[..i]).failure.None?
    requires db.courses == RunUnits(env, courses0, unitIds[..i]).courses
    requires db.crawlQueue == queue0 + RunUnits(env, courses0, unitIds[..i]).sent
    modifies db`courses, db`crawlQueue
    ensures AllTerminate(env, unitIds[..i + 1])
    ensures var r := RunUnits(env, courses0, unitIds[..i + 1]);
            db.courses == r.courses && db.crawlQueue == queue0 + r.sent
            && (outcome.Aborted? ==> r.failure == Some(outcome.error)) && (!outcome.Aborted? ==> r.failure.None?)
    ensures ListingChain(env, FirstRequest(unitIds[i], env.nowMs), rs, outcome)
  {
    UnitsStep(env, courses0, unitIds, i);
    var req := FirstRequest(unitIds[i], env.nowMs);
    ghost var n := EndsWithin(env, req);
    ghost var q := RunUnits(env, courses0, unitIds[..i]);
    outcome, rs := CrawlCourseListing(db, env, req, n);
    AppendAssoc(queue0, q.sent, RunListing(env, q.courses, req, n).sent);
  }

  /** The crawl over one more unit. */
  lemma UnitsStep(env: CrawlEnv, courses: map<CourseKey, CourseItem>, unitIds: seq<string>, i: nat)
    requires AllTerminate(env, unitIds) && i < |unitIds|
    requires AllTerminate(env, unitIds[..i]) && RunUnits(env, courses, unitIds[..i]).failure.None?
    ensures AllTerminate(env, unitIds[..i + 1]) && ListingTerminates(env, FirstRequest(unitIds[i], env.nowMs))
    ensures var q := RunUnits(env, courses, unitIds[..i]);
            var req := FirstRequest(unitIds[i], env.nowMs);
            var r := RunListing(env, q.courses, req, EndsWithin(env, req));
            RunUnits(env, courses, unitIds[..i + 1])
              == CrawlRun(r.courses, q.sent + r.sent, if r.outcome.Aborted? then Some(r.outcome.error) else None)
  {
    AllTerminatePrefix(env, unitIds, i + 1);
    PrefixSnoc(unitIds, i);
    assert unitIds[..i + 1][..i] == unitIds[..i];
  }

  /** `crawl` as written: the listings of the units "0" to "19". */
  method Crawl(db: Store, env: CrawlEnv) returns (failure: Option<CrawlError>, ghost requests: seq<seq<ListingRequest>>)
    requires AllTerminate(env, IndexUnitIds())
    modifies db`courses, db`crawlQueue
    ensures var r := RunUnits(env, old(db.courses), IndexUnitIds());
            db.courses == r.courses && db.crawlQueue == old(db.crawlQueue) + r.sent && failure == r.failure
    ensures |requests| <= |Units| && (failure.None? ==> |requests| == |Units|)
    ensures forall k :: 0 <= k < |requests| ==> |requests[k]| >= 1 && requests[k][0] == FirstRequest(NatText(k), env.nowMs)
  {
    failure, requests := CrawlUnits(db, env, IndexUnitIds());
  }

  /** `crawl` as intended: the listings of the units in `units`. */
  method CrawlListedUnits(db: Store, env: CrawlEnv) returns (failure: Option<CrawlError>, ghost requests: seq<seq<ListingRequest>>)
    requires AllTerminate(env, ListedUnitIds())
    modifies db`courses, db`crawlQueue
    ensures var r := RunUnits(env, old(db.courses), ListedUnitIds());
            db.courses == r.courses && db.crawlQueue == old(db.crawlQueue) + r.sent && failure == r.failure
    ensures |requests| <= |Units| && (failure.None? ==> |requests| == |Units|)
    ensures forall k :: 0 <= k < |requests| ==> |requests[k]| >= 1 && requests[k][0] == FirstRequest(IntText(Units[k]), env.nowMs)
  {
    failure, requests := CrawlUnits(db, env, ListedUnitIds());
  }

  /**
   * The indices are not the unit ids: unit 22 is never requested, and the
   * unit "0", which is not a listed unit, is.
   */
  lemma IndexUnitsMissListed()
    ensures IntText(22) in ListedUnitIds() && IntText(22) !in IndexUnitIds()
    ensures NatText(0) in IndexUnitIds() && NatText(0) !in ListedUnitIds()
  {
    assert ListedUnitIds()[7] == IntText(22);
    assert IndexUnitIds()[0] == NatText(0);
    forall i | 0 <= i < |Units| ensures IndexUnitIds()[i] != IntText(22) {
      NatTextInjective(i, 22);
    }
    forall i | 0 <= i < |Units| ensures ListedUnitIds()[i] != NatText(0) {
      NatTextInjective(Units[i], 0);
    }
  }

  /** With the unit ids themselves every listed unit is requested. */
  lemma ListedUnitsAllRequested(u: int)
    requires u in Units
    ensures IntText(u) in ListedUnitIds()
  {
    var i :| 0 <= i < |Units| && Units[i] == u;
    assert ListedUnitIds()[i] == IntText(u);
  }

  // ---------------------------------------------------------------------
  // The detail crawl
  // ---------------------------------------------------------------------

  /** The trimmed texts the detail page's selectors pick out. */
  datatype DetailPage = DetailPage(
    timeInfo: string,       // "Ajankohta"
    location: string,       // "Paikkakunta"
    goal: string,           // "Tavoite"
    audience: string,       // "Kenelle kurssi soveltuu"
    prerequisites: string,  // "Esitiedot"
    contents: string)       // "Sisältö"

  datatype DetailEnv = DetailEnv(
    fetchDetail: int -> Option<DetailPage>,  // the detail page of a course id; None when the request fails
    parseEnd: string -> Option<int>,         // strict "D.M.YYYY H.mm" to epoch seconds; None when invalid
    digest: Item -> string,
    deleteOk: string -> bool,                // whether deleting the message with this receipt handle succeeds
    nowMs: int)

  /** `EndTime`: the parsed `LoppuaikaStr`, stored as null when invalid or zero (falsy). */
  function EndTimeOf(env: DetailEnv, item: Item): (r: Option<int>)
    ensures r.Some? ==> r.value != 0
  {
    match Get(item, "LoppuaikaStr")
    case Some(JStr(s)) =>
      (match env.parseEnd(s)
       case Some(t) => if t != 0 then Some(t) else None
       case None => None)
    case _ => None
  }

  /** The description: the four sections joined by blank lines. */
  function IntroText(page: DetailPage): string {
    Join([page.goal, page.audience, page.prerequisites, page.contents], "\n\n")
  }

  /**
   * The item `doCourseCrawl` writes for a job, or why it throws: the page
   * fetch fails, `Alkuaika` has no numeric value, or `Nimi` is no string.
   */
  function DetailRecord(env: DetailEnv, job: CrawlJob): Result<CourseItem, CrawlError> {
    var item := job.courseJsonItem;
    match env.fetchDetail(job.courseId)
    case None => Err(DetailFetchFailed)
    case Some(page) =>
      match Get(item, "Alkuaika")
      case Some(JNum(start)) =>
        (match Get(item, "Nimi")
         case Some(JStr(name)) =>
           Ok(CourseItem(CourseKeyOf(job.courseId), Some(env.nowMs), Some(name), Some(page.location), Some(start),
                         EndTimeOf(env, item), Some(page.timeInfo), Some(IntroText(page)),
                         Some(CourseJsonHash(item, env.digest)), Some(false)))
         case _ => Err(BadName))
      case _ => Err(BadStartTime)
  }

  /** `doCourseCrawl`: the put replaces the whole item. */
  method DoCourseCrawl(db: Store, env: DetailEnv, job: CrawlJob) returns (failure: Option<CrawlError>)
    modifies db`courses
    ensures match DetailRecord(env, job)
            case Ok(c) => failure.None? && db.courses == old(db.courses)[CourseKeyOf(job.courseId) := c]
            case Err(e) => failure == Some(e) && db.courses == old(db.courses)
  {
    var record := DetailRecord(env, job);
    if record.Err? {
      return Some(record.error);
    }
    db.courses := db.courses[CourseKeyOf(job.courseId) := record.value];
    failure := None;
  }

  /**
   * A crawled record is settled: not pending, stamped now, holding its
   * item's hash; so the listing re-queues the same item only once 25 hours
   * have passed, and a changed item at once.
   */
  lemma CrawledRecordIsFresh(env: DetailEnv, job: CrawlJob, hash: string, laterMs: int)
    requires DetailRecord(env, job).Ok?
    ensures var c := DetailRecord(env, job).value;
            !IsPending(c) && c.courseIdN == CourseKeyOf(job.courseId) && c.lastCrawledAt == Some(env.nowMs)
            && c.jsonHash == Some(CourseJsonHash(job.courseJsonItem, env.digest))
    ensures var c := DetailRecord(env, job).value;
            hash == CourseJsonHash(job.courseJsonItem, env.digest) ==>
              (ShouldEnqueue(Some(c), hash, laterMs) <==> laterMs - env.nowMs >= 25 * HourMs)
    ensures var c := DetailRecord(env, job).value;
            hash != CourseJsonHash(job.courseJsonItem, env.digest) ==> ShouldEnqueue(Some(c), hash, laterMs)
  {
    EnqueueDecision(Some(DetailRecord(env, job).value), hash, laterMs);
  }

  /**
   * The detail crawl and the next listing run meet: when both hash with the
   * same digest, re-listing the item a job came from leaves everything as
   * it was until 25 hours after the crawl, and from then on sends the job
   * again (when the send succeeds).
   */
  lemma ListingAfterDetailCrawl(cenv: CrawlEnv, denv: DetailEnv, p: Progress, raw: Item)
    requires p.failure.None? && ParseListingItem(raw).Ok?
    requires cenv.digest == denv.digest
    requires var e := ParseListingItem(raw).value;
             DetailRecord(denv, CrawlJob(e.courseId, e.item)).Ok?
             && Stored(p.courses, CourseKeyOf(e.courseId)) == Some(DetailRecord(denv, CrawlJob(e.courseId, e.item)).value)
    ensures cenv.nowMs - denv.nowMs < 25 * HourMs ==> StepItem(cenv, p, raw) == p
    ensures var e := ParseListingItem(raw).value;
            cenv.nowMs - denv.nowMs >= 25 * HourMs && cenv.sendOk(CrawlJob(e.courseId, e.item))
            ==> StepItem(cenv, p, raw).sent == p.sent + [CrawlJob(e.courseId, e.item)]
  {
    var e := ParseListingItem(raw).value;
    var job := CrawlJob(e.courseId, e.item);
    CrawledRecordIsFresh(denv, job, CourseJsonHash(e.item, cenv.digest), cenv.nowMs);
  }

  /** Every message the listing sends carries its start as a number, which the detail crawl needs. */
  lemma SentJobsHaveStart(env: CrawlEnv, p: Progress, raw: Item)
    requires p.failure.None?
    requires |StepItem(env, p, raw).sent| > |p.sent|
    ensures var job := StepItem(env, p, raw).sent[|p.sent|];
            Get(job.courseJsonItem, "Alkuaika").Some? && Get(job.courseJsonItem, "Alkuaika").value.JNum?
  {
    ListingItemRewrite(raw);
  }

  /** What `handleSqsCrawlEvent` has done with the records so far. */
  datatype DetailProgress = DetailProgress(courses: map<CourseKey, CourseItem>, deleted: seq<string>, failure: Option<CrawlError>)

  /**
   * The handler over `records`: crawl, then delete; the first exception
   * ends it, and a failed delete leaves its course written but the message
   * on the queue.
   */
  function HandleRecords(env: DetailEnv, courses: map<CourseKey, CourseItem>, records: seq<SqsRecord<CrawlJob>>): (r: DetailProgress)
    decreases |records|
  {
    if records == [] then DetailProgress(courses, [], None)
    else
      var q := HandleRecords(env, courses, records[..|records| - 1]);
      var last := records[|records| - 1];
      if q.failure.Some? then q
      else match DetailRecord(env, last.body)
        case Err(e) => q.(failure := Some(e))
        case Ok(c) =>
          var courses' := q.courses[CourseKeyOf(last.body.courseId) := c];
          if env.deleteOk(last.receiptHandle) then DetailProgress(courses', q.deleted + [last.receiptHandle], None)
          else DetailProgress(courses', q.deleted, Some(DeleteFailed))
  }

  /**
   * A message is deleted only after its course was written: the deleted
   * handles are those of a prefix of the records, all of them when nothing
   * threw, and otherwise the record right after the prefix is the one that
   * failed: either its crawl threw, or its course was written and its
   * delete failed.
   */
  lemma {:induction false} HandleRecordsAcks(env: DetailEnv, courses: map<CourseKey, CourseItem>, records: seq<SqsRecord<CrawlJob>>)
    ensures var r := HandleRecords(env, courses, records);
            |r.deleted| <= |records|
            && (forall j :: 0 <= j < |r.deleted| ==>
                  r.deleted[j] == records[j].receiptHandle && DetailRecord(env, records[j].body).Ok?)
            && (r.failure.None? ==> |r.deleted| == |records|)
            && (r.failure.Some? ==>
                  |r.deleted| < |records|
                  && (DetailRecord(env, records[|r.deleted|].body) == Err(r.failure.value)
                      || (DetailRecord(env, records[|r.deleted|].body).Ok? && r.failure == Some(DeleteFailed)
                          && !env.deleteOk(records[|r.deleted|].receiptHandle))))
    decreases |records|
  {
    if records != [] {
      var prefix := records[..|records| - 1];
      HandleRecordsAcks(env, courses, prefix);
      assert forall j :: 0 <= j < |prefix| ==> records[j] == prefix[j];
    }
  }

  /** Every record handled without an exception leaves its course crawled and not pending. */
  lemma {:induction false} HandleRecordsSettles(env: DetailEnv, courses: map<CourseKey, CourseItem>,
                                                records: seq<SqsRecord<CrawlJob>>, j: nat)
    requires j < |records| && HandleRecords(env, courses, records).failure.None?
    ensures CourseKeyOf(records[j].body.courseId) in HandleRecords(env, courses, records).courses
    ensures !IsPending(HandleRecords(env, courses, records).courses[CourseKeyOf(records[j].body.courseId)])
    decreases |records|
  {
    var prefix := records[..|records| - 1];
    var last := records[|records| - 1];
    if j < |prefix| {
      assert records[j] == prefix[j];
      HandleRecordsSettles(env, courses, prefix, j);
    }
  }

  /** `handleSqsCrawlEvent`: per record, crawl the course, then delete the message. */
  method HandleSqsCrawlEvent(db: Store, env: DetailEnv, records: seq<SqsRecord<CrawlJob>>) returns (failure: Option<CrawlError>)
    modifies db`courses, db`crawlDeleted
    ensures var r := HandleRecords(env, old(db.courses), records);
            db.courses == r.courses && db.crawlDeleted == old(db.crawlDeleted) + r.deleted && failure == r.failure
  {
    ghost var courses0, deleted0 := db.courses, db.crawlDeleted;
    var i := 0;
    while i < |records|
      invariant 0 <= i <= |records|
      invariant HandleRecords(env, courses0, records[..i]).failure.None?
      invariant db.courses == HandleRecords(env, courses0, records[..i]).courses
      invariant db.crawlDeleted == deleted0 + HandleRecords(env, courses0, records[..i]).deleted
    {
      assert records[..i + 1][..i] == records[..i];
      failure := DoCourseCrawl(db, env, records[i].body);
      if failure.Some? {
        HandleRecordsStops(env, courses0, records, i + 1);
        return;
      }
      if !env.deleteOk(records[i].receiptHandle) {
        failure := Some(DeleteFailed);
        HandleRecordsStops(env, courses0, records, i + 1);
        return;
      }
      db.crawlDeleted := db.crawlDeleted + [records[i].receiptHandle];
      i := i + 1;
    }
    assert records[..i] == records;
    failure := None;
  }

  /** Once a record has failed, the later ones are not handled. */
  lemma {:induction false} HandleRecordsStops(env: DetailEnv, courses: map<CourseKey, CourseItem>,
                                              records: seq<SqsRecord<CrawlJob>>, i: nat)
    requires i <= |records| && HandleRecords(env, courses, records[..i]).failure.Some?
    ensures HandleRecords(env, courses, records) == HandleRecords(env, courses, records[..i])
    decreases |records|
  {
    if i < |records| {
      var prefix := records[..|records| - 1];
      assert prefix[..i] == records[..i];
      HandleRecordsStops(env, courses, prefix, i);
    } else {
      assert records[..i] == records;
    }
  }
}
