/**
 * The search index over the Courses table that a warm Lambda keeps between
 * invocations: the flexsearch index and `courseMap`, rebuilt only when the
 * status marker `CourseIndexUpdated` changes; and `findCourses`, which
 * splits a subscription's tokens into wanted and excluded words, searches,
 * looks the hits up and sorts them by start time.
 *
 * The flexsearch index is the list of (id, text) pairs added to it; its
 * search is a parameter (`Searcher`).
 */
module CourseIndex {
  import opened Wrappers
  import opened Text
  import opened Store
  import opened TableReaders
  import opened Seqs

  // ---------------------------------------------------------------------
  // Keys and views
  // ---------------------------------------------------------------------

  /**
   * A key of the JavaScript `Map` `courseMap`: `Map.get` compares with
   * SameValueZero, so the string "42" and the number 42 are different keys.
   */
  datatype MapKey = StrKey(s: string) | NumKey(n: int)

  /** `${key}`: the key as it appears in a template string or `toString()`. */
  function KeyText(k: MapKey): string {
    match k
    case StrKey(s) => s
    case NumKey(n) => IntText(n)
  }

  const LinkPrefix: string := "https://koulutuskalenteri.mpk.fi/Koulutuskalenteri/Tutustu-tarkemmin/id/"

  /** The JSON object `getCourseJsonById` returns. */
  datatype CourseView = CourseView(
    id: MapKey,
    name: Option<string>,
    location: Option<string>,
    timeinfo: Option<string>,
    startsAt: Option<int>,
    endsAt: Option<int>,
    info: Option<string>,
    link: string)

  /** `getCourseJsonById`: the view of the stored item under `id`, or undefined. */
  function GetCourseJsonById(courseMap: map<MapKey, CourseItem>, id: MapKey): Option<CourseView> {
    if id !in courseMap then None
    else
      var doc := courseMap[id];
      Some(CourseView(id, doc.name, doc.location, doc.timeInfo, doc.startTime, doc.endTime, doc.introText,
                      LinkPrefix + KeyText(id)))
  }

  // ---------------------------------------------------------------------
  // The cached index
  // ---------------------------------------------------------------------

  /** What `courseIndex.add(id, text)` was given. */
  type IndexEntry = (CourseKey, string)

  /** `"" + x` of an optional string: undefined renders as "undefined". */
  function OptText(o: Option<string>): string {
    if o.Some? then o.value else "undefined"
  }

  /** The text a course is indexed under: name, location and description. */
  function IndexText(doc: CourseItem): string {
    OptText(doc.name) + " " + OptText(doc.location) + " " + OptText(doc.introText)
  }

  /** The index entries of the scanned items, in scan order. */
  function IndexEntries(docs: seq<CourseItem>): (r: seq<IndexEntry>)
    ensures |r| == |docs|
    ensures forall i :: 0 <= i < |docs| ==> r[i] == (docs[i].courseIdN, IndexText(docs[i]))
  {
    if docs == [] then []
    else IndexEntries(docs[..|docs| - 1]) + [(docs[|docs| - 1].courseIdN, IndexText(docs[|docs| - 1]))]
  }

  /** `courseMap` after `set(doc.CourseId.N, doc)` for each item in turn. */
  function DocMap(docs: seq<CourseItem>): map<MapKey, CourseItem> {
    if docs == [] then map[]
    else DocMap(docs[..|docs| - 1])[StrKey(docs[|docs| - 1].courseIdN) := docs[|docs| - 1]]
  }

  /**
   * The map holds exactly the scanned items, each under the string of its
   * `CourseId.N`; of two items with one key the later one is kept; no
   * numeric key is ever present.
   */
  lemma {:induction false} DocMapExactly(docs: seq<CourseItem>)
    ensures forall k :: k in DocMap(docs) ==> k.StrKey? && DocMap(docs)[k] in docs && DocMap(docs)[k].courseIdN == k.s
    ensures forall i :: 0 <= i < |docs| ==> StrKey(docs[i].courseIdN) in DocMap(docs)
    ensures forall i :: 0 <= i < |docs| && (forall j :: i < j < |docs| ==> docs[j].courseIdN != docs[i].courseIdN)
              ==> DocMap(docs)[StrKey(docs[i].courseIdN)] == docs[i]
  {
    DocMapKeys(docs);
    DocMapCovers(docs);
    DocMapLatest(docs);
  }

  /**
   * Against a map a rebuild filled, a view exists exactly for the text of
   * a scanned id (never for a numeric key), and it shows the last item
   * scanned under that id, linked by the id's text.
   */
  lemma ViewOfScanned(docs: seq<CourseItem>, id: MapKey)
    ensures GetCourseJsonById(DocMap(docs), id).Some? <==>
              id.StrKey? && exists i :: 0 <= i < |docs| && docs[i].courseIdN == id.s
    ensures forall i :: 0 <= i < |docs| && id == StrKey(docs[i].courseIdN)
                        && (forall j :: i < j < |docs| ==> docs[j].courseIdN != docs[i].courseIdN) ==>
              GetCourseJsonById(DocMap(docs), id)
              == Some(CourseView(id, docs[i].name, docs[i].location, docs[i].timeInfo, docs[i].startTime,
                                 docs[i].endTime, docs[i].introText, LinkPrefix + docs[i].courseIdN))
  {
    DocMapExactly(docs);
    if id in DocMap(docs) {
      var doc := DocMap(docs)[id];
      var i :| 0 <= i < |docs| && docs[i] == doc;
      assert docs[i].courseIdN == id.s;
    }
  }

  lemma {:induction false} DocMapKeys(docs: seq<CourseItem>)
    ensures forall k :: k in DocMap(docs) ==> k.StrKey? && DocMap(docs)[k] in docs && DocMap(docs)[k].courseIdN == k.s
  {
    if docs != [] {
      var prefix := docs[..|docs| - 1];
      DocMapKeys(prefix);
      assert forall x :: x in prefix ==> x in docs;
    }
  }

  lemma {:induction false} DocMapCovers(docs: seq<CourseItem>)
    ensures forall i :: 0 <= i < |docs| ==> StrKey(docs[i].courseIdN) in DocMap(docs)
  {
    if docs != [] {
      var prefix := docs[..|docs| - 1];
      DocMapCovers(prefix);
      assert forall i :: 0 <= i < |prefix| ==> docs[i] == prefix[i];
    }
  }

  lemma {:induction false} DocMapLatest(docs: seq<CourseItem>)
    ensures forall i :: 0 <= i < |docs| ==> StrKey(docs[i].courseIdN) in DocMap(docs)
    ensures forall i :: 0 <= i < |docs| && (forall j :: i < j < |docs| ==> docs[j].courseIdN != docs[i].courseIdN)
              ==> DocMap(docs)[StrKey(docs[i].courseIdN)] == docs[i]
  {
    if docs != [] {
      var prefix := docs[..|docs| - 1];
      DocMapCovers(docs);
      DocMapLatest(prefix);
      assert forall i :: 0 <= i < |prefix| ==> docs[i] == prefix[i];
    }
  }

  /** Status marker `lastUpdatedInDb` makes `populateCourseIndex` return early. */
  predicate SkipRebuild(force: bool, lastUpdatedInDb: Option<int>, currentIndexVersion: int) {
    !force && lastUpdatedInDb.Some? && lastUpdatedInDb.value != 0 && lastUpdatedInDb.value == currentIndexVersion
  }

  /** The module-level state of the index: `courseIndex`, `courseMap` and `currentIndexVersion`. */
  datatype IndexState = IndexState(entries: seq<IndexEntry>, courseMap: map<MapKey, CourseItem>, version: int)

  /**
   * The state after `populateCourseIndex` with marker `lastUpdatedInDb`,
   * when the Courses scan returns `docs` (None: the scan throws). The
   * version is recorded before the scan, so a throwing scan leaves the old
   * index under the new version.
   */
  function Populated(s: IndexState, force: bool, lastUpdatedInDb: Option<int>, docs: Option<seq<CourseItem>>): IndexState {
    if SkipRebuild(force, lastUpdatedInDb, s.version) then s
    else match docs
      case None => s.(version := lastUpdatedInDb.GetOr(0))
      case Some(d) => IndexState(IndexEntries(d), DocMap(d), lastUpdatedInDb.GetOr(0))
  }

  /**
   * Refreshing twice against an unchanged marker and table is refreshing
   * once: after a rebuild the next unforced call either skips (the marker
   * is truthy) or rebuilds the same index.
   */
  lemma PopulateIdempotent(s: IndexState, lastUpdatedInDb: Option<int>, docs: seq<CourseItem>)
    ensures var t := Populated(s, false, lastUpdatedInDb, Some(docs));
            Populated(t, false, lastUpdatedInDb, Some(docs)) == t
    ensures var t := Populated(s, false, lastUpdatedInDb, Some(docs));
            SkipRebuild(false, lastUpdatedInDb, t.version) <==> lastUpdatedInDb.Some? && lastUpdatedInDb.value != 0
  {
  }

  /** After `triggerCourseIndexUpdated` reset the version to 0, the next call rebuilds from the table. */
  lemma ResetForcesRebuild(s: IndexState, force: bool, lastUpdatedInDb: Option<int>, docs: seq<CourseItem>)
    ensures Populated(s.(version := 0), force, lastUpdatedInDb, Some(docs))
            == IndexState(IndexEntries(docs), DocMap(docs), lastUpdatedInDb.GetOr(0))
  {
  }

  /**
   * A Courses scan that throws during a rebuild against a truthy marker
   * pins the old index: every later unforced call under the same marker
   * skips, whatever the table then holds.
   */
  lemma FailedScanPinsStaleIndex(s: IndexState, lastUpdatedInDb: Option<int>, later: Option<seq<CourseItem>>)
    requires lastUpdatedInDb.Some? && lastUpdatedInDb.value != 0
    ensures var t := Populated(s, false, lastUpdatedInDb, None);
            t.entries == s.entries && t.courseMap == s.courseMap
            && Populated(t, false, lastUpdatedInDb, later) == t
  {
  }

  /** The rebuild loop: a fresh index and a fresh map, filled with the scanned items in order. */
  method BuildIndex(allData: seq<CourseItem>) returns (entries: seq<IndexEntry>, courseMap: map<MapKey, CourseItem>)
    ensures entries == IndexEntries(allData) && courseMap == DocMap(allData)
  {
    entries, courseMap := [], map[];
    for i := 0 to |allData|
      invariant entries == IndexEntries(allData[..i])
      invariant courseMap == DocMap(allData[..i])
    {
      assert allData[..i + 1][..i] == allData[..i];
      entries := entries + [(allData[i].courseIdN, IndexText(allData[i]))];
      courseMap := courseMap[StrKey(allData[i].courseIdN) := allData[i]];
    }
    assert allData[..|allData|] == allData;
  }

  /** The module state of `courseindex.ts`. */
  class CourseIndexCache {
    /** The (id, text) pairs added to `courseIndex` since it was created. */
    var entries: seq<IndexEntry>
    /** `courseMap`. */
    var courseMap: map<MapKey, CourseItem>
    /** `currentIndexVersion`. */
    var currentIndexVersion: int

    /** The three module variables as one value. */
    function State(): IndexState
      reads this
    {
      IndexState(entries, courseMap, currentIndexVersion)
    }

    /** A cold start: an empty index at version 0. */
    constructor ()
      ensures entries == [] && courseMap == map[] && currentIndexVersion == 0
    {
      entries, courseMap, currentIndexVersion := [], map[], 0;
    }

    /**
     * `populateCourseIndex`: unless skipped, record the marker (0 when
     * there is none), scan the Courses table, and fill a fresh index and a
     * fresh map with the scanned items. `scanOk` says whether the scan
     * resolves; when it throws, the exception propagates.
     */
    method PopulateCourseIndex(db: Store, force: bool, scan: Request<CourseKey> -> Page<CourseKey, CourseItem>,
                               tableName: string, scanOk: bool, ghost n: nat)
      returns (thrown: bool)
      requires ChainEnds(scan, ScanRequest(tableName), n)
      modifies this
      ensures thrown <==> !SkipRebuild(force, db.courseIndexUpdatedAt, old(currentIndexVersion)) && !scanOk
      ensures SkipRebuild(force, db.courseIndexUpdatedAt, old(currentIndexVersion)) ==>
                entries == old(entries) && courseMap == old(courseMap) && currentIndexVersion == old(currentIndexVersion)
      ensures !SkipRebuild(force, db.courseIndexUpdatedAt, old(currentIndexVersion)) ==>
                var docs := ChainItems(scan, ScanRequest(tableName), n);
                currentIndexVersion == db.courseIndexUpdatedAt.GetOr(0)
                && (scanOk ==> entries == IndexEntries(docs) && courseMap == DocMap(docs))
                && (!scanOk ==> entries == old(entries) && courseMap == old(courseMap))
      ensures State() == Populated(old(State()), force, db.courseIndexUpdatedAt,
                                   if scanOk then Some(ChainItems(scan, ScanRequest(tableName), n)) else None)
    {
      var lastUpdatedInDb := db.courseIndexUpdatedAt;
      if SkipRebuild(force, lastUpdatedInDb, currentIndexVersion) {
        return false;
      }
      currentIndexVersion := lastUpdatedInDb.GetOr(0);
      if !scanOk {
        return true;
      }
      var allData, _ := ScanTable(scan, tableName, n);
      entries, courseMap := BuildIndex(allData);
      thrown := false;
    }

    /** `triggerCourseIndexUpdated`: stamp the marker with the time and reset the version. */
    method TriggerCourseIndexUpdated(db: Store, nowMs: int)
      modifies db`courseIndexUpdatedAt, this`currentIndexVersion
      ensures db.courseIndexUpdatedAt == Some(nowMs) && currentIndexVersion == 0
    {
      db.courseIndexUpdatedAt := Some(nowMs);
      currentIndexVersion := 0;
    }
  }

  // ---------------------------------------------------------------------
  // Tokens
  // ---------------------------------------------------------------------

  /** `token[0] === "-"`. */
  predicate IsNegated(t: string) {
    |t| > 0 && t[0] == '-'
  }

  /** The tokens to search for, in order. */
  function Keywords(tokens: seq<string>): seq<string> {
    if tokens == [] then []
    else Keywords(tokens[..|tokens| - 1]) + (if IsNegated(tokens[|tokens| - 1]) then [] else [tokens[|tokens| - 1]])
  }

  /** The tokens to exclude, in order, without their leading `-`. */
  function NotKeywords(tokens: seq<string>): seq<string> {
    if tokens == [] then []
    else NotKeywords(tokens[..|tokens| - 1]) + (if IsNegated(tokens[|tokens| - 1]) then [tokens[|tokens| - 1][1..]] else [])
  }

  /** Each token, with its `-` put back when it was stripped. */
  function Dashed(words: seq<string>): seq<string> {
    if words == [] then [] else Dashed(words[..|words| - 1]) + ["-" + words[|words| - 1]]
  }

  /**
   * Every token lands in exactly one of the two lists: the keywords and the
   * re-dashed exclusions together are the tokens, counted with repetition.
   */
  lemma {:induction false} TokenPartition(tokens: seq<string>)
    ensures multiset(Keywords(tokens)) + multiset(Dashed(NotKeywords(tokens))) == multiset(tokens)
    ensures |Keywords(tokens)| + |NotKeywords(tokens)| == |tokens|
  {
    if tokens != [] {
      var prefix := tokens[..|tokens| - 1];
      var t := tokens[|tokens| - 1];
      TokenPartition(prefix);
      SplitLast(tokens);
      TokenStep(prefix, t);
    }
  }

  /** What one more token adds to each list. */
  lemma TokenStep(prefix: seq<string>, t: string)
    ensures Keywords(prefix + [t]) == Keywords(prefix) + (if IsNegated(t) then [] else [t])
    ensures Dashed(NotKeywords(prefix + [t])) == Dashed(NotKeywords(prefix)) + (if IsNegated(t) then [t] else [])
  {
    var tokens := prefix + [t];
    assert tokens[..|tokens| - 1] == prefix && tokens[|tokens| - 1] == t;
    if IsNegated(t) {
      var nk := NotKeywords(prefix) + [t[1..]];
      assert NotKeywords(tokens) == nk;
      assert nk[..|nk| - 1] == NotKeywords(prefix) && nk[|nk| - 1] == t[1..];
      assert "-" + t[1..] == t;
      assert Dashed(nk) == Dashed(NotKeywords(prefix)) + ["-" + t[1..]];
    } else {
      assert NotKeywords(tokens) == NotKeywords(prefix) + [];
      assert NotKeywords(prefix) + [] == NotKeywords(prefix);
    }
  }

  /** A token is a keyword exactly when it does not start with `-`. */
  lemma {:induction false} KeywordsSpec(tokens: seq<string>)
    ensures forall t :: t in Keywords(tokens) <==> t in tokens && !IsNegated(t)
  {
    if tokens != [] {
      var prefix := tokens[..|tokens| - 1];
      KeywordsSpec(prefix);
      assert tokens == prefix + [tokens[|tokens| - 1]];
      TokenStep(prefix, tokens[|tokens| - 1]);
    }
  }

  /** A token is an exclusion, `-` stripped, exactly when it starts with `-`. */
  lemma {:induction false} NotKeywordsSpec(tokens: seq<string>)
    ensures forall t :: t in Dashed(NotKeywords(tokens)) <==> t in tokens && IsNegated(t)
  {
    if tokens != [] {
      var prefix := tokens[..|tokens| - 1];
      NotKeywordsSpec(prefix);
      assert tokens == prefix + [tokens[|tokens| - 1]];
      TokenStep(prefix, tokens[|tokens| - 1]);
    }
  }

  /** The loop of `findCourses` that splits the tokens. */
  method SplitTokens(tokens: seq<string>) returns (keywords: seq<string>, notKeywords: seq<string>)
    ensures keywords == Keywords(tokens) && notKeywords == NotKeywords(tokens)
  {
    keywords, notKeywords := [], [];
    for i := 0 to |tokens|
      invariant keywords == Keywords(tokens[..i]) && notKeywords == NotKeywords(tokens[..i])
    {
      assert tokens[..i + 1][..i] == tokens[..i];
      var token := tokens[i];
      if |token| > 0 && token[0] == '-' {
        notKeywords := notKeywords + [token[1..]];
      } else {
        keywords := keywords + [token];
      }
    }
    assert tokens[..|tokens|] == tokens;
  }

  // ---------------------------------------------------------------------
  // Searching
  // ---------------------------------------------------------------------

  /** flexsearch's `searchAsync(query)` over the index entries: the ids of the hits, in rank order. */
  type Searcher = (seq<IndexEntry>, string) -> seq<CourseKey>

  /** `results.filter(x => !negatedResults.includes(x))`. */
  function Exclude(results: seq<CourseKey>, negated: seq<CourseKey>): seq<CourseKey> {
    if results == [] then []
    else Exclude(results[..|results| - 1], negated)
         + (if results[|results| - 1] in negated then [] else [results[|results| - 1]])
  }

  /** A hit survives exactly when it is not a negated hit; nothing negated, nothing removed. */
  lemma {:induction false} ExcludeSpec(results: seq<CourseKey>, negated: seq<CourseKey>)
    ensures forall x :: x in Exclude(results, negated) <==> x in results && x !in negated
    ensures negated == [] ==> Exclude(results, negated) == results
  {
    if results != [] {
      ExcludeSpec(results[..|results| - 1], negated);
      SplitLast(results);
    }
  }

  /** The ids `findCourses` goes on to look up. */
  function Candidates(search: Searcher, entries: seq<IndexEntry>, tokens: seq<string>): seq<CourseKey> {
    var results := search(entries, Join(Keywords(tokens), " "));
    if |NotKeywords(tokens)| > 0 then Exclude(results, search(entries, Join(NotKeywords(tokens), " ")))
    else results
  }

  /** The views of the ids that have a map entry, in id order. */
  function Views(courseMap: map<MapKey, CourseItem>, ids: seq<CourseKey>): seq<CourseView> {
    if ids == [] then []
    else
      var doc := GetCourseJsonById(courseMap, StrKey(ids[|ids| - 1]));
      Views(courseMap, ids[..|ids| - 1]) + (if doc.Some? then [doc.value] else [])
  }

  /** Views are exactly the lookups of the ids that hit; the other ids are dropped. */
  lemma {:induction false} ViewsSpec(courseMap: map<MapKey, CourseItem>, ids: seq<CourseKey>)
    ensures forall v :: v in Views(courseMap, ids) ==>
              v.id.StrKey? && v.id.s in ids && GetCourseJsonById(courseMap, v.id) == Some(v)
    ensures forall x :: x in ids && StrKey(x) in courseMap ==> GetCourseJsonById(courseMap, StrKey(x)).value in Views(courseMap, ids)
    ensures |Views(courseMap, ids)| <= |ids|
  {
    if ids != [] {
      ViewsSpec(courseMap, ids[..|ids| - 1]);
      SplitLast(ids);
    }
  }

  /** The `for` loop of `findCourses` that looks the hits up. */
  method CollectViews(courseMap: map<MapKey, CourseItem>, results: seq<CourseKey>) returns (courses: seq<CourseView>)
    ensures courses == Views(courseMap, results)
  {
    courses := [];
    for i := 0 to |results|
      invariant courses == Views(courseMap, results[..i])
    {
      assert results[..i + 1][..i] == results[..i];
      var doc := GetCourseJsonById(courseMap, StrKey(results[i]));
      if doc.Some? {
        courses := courses + [doc.value];
      }
    }
    assert results[..|results|] == results;
  }

  // ---------------------------------------------------------------------
  // Sorting by start time
  // ---------------------------------------------------------------------

  /** `a.starts_at || 0`: a missing start counts as 0. */
  function StartKey(v: CourseView): int {
    v.startsAt.GetOr(0)
  }

  predicate SortedByStart(vs: seq<CourseView>) {
    forall i, j :: 0 <= i < j < |vs| ==> StartKey(vs[i]) <= StartKey(vs[j])
  }

  /** Insert `v` after every element whose key is not larger. */
  function InsertByStart(s: seq<CourseView>, v: CourseView): seq<CourseView> {
    if s == [] then [v]
    else if StartKey(v) < StartKey(s[0]) then [v] + s
    else [s[0]] + InsertByStart(s[1..], v)
  }

  /**
   * `courses.sort((a, b) => (a.starts_at || 0) - (b.starts_at || 0))`; the
   * sort is stable, so this insertion sort is it.
   */
  function SortByStart(vs: seq<CourseView>): seq<CourseView> {
    if vs == [] then [] else InsertByStart(SortByStart(vs[..|vs| - 1]), vs[|vs| - 1])
  }

  /** The elements with start key `k`, in order. */
  function WithKey(vs: seq<CourseView>, k: int): seq<CourseView> {
    if vs == [] then [] else (if StartKey(vs[0]) == k then [vs[0]] else []) + WithKey(vs[1..], k)
  }

  lemma {:induction false} WithKeyAppend(a: seq<CourseView>, b: seq<CourseView>, k: int)
    ensures WithKey(a + b, k) == WithKey(a, k) + WithKey(b, k)
  {
    if a == [] {
      assert a + b == b;
    } else {
      var head := if StartKey(a[0]) == k then [a[0]] else [];
      assert (a + b)[0] == a[0] && (a + b)[1..] == a[1..] + b;
      assert WithKey(a + b, k) == head + WithKey(a[1..] + b, k);
      assert WithKey(a, k) == head + WithKey(a[1..], k);
      WithKeyAppend(a[1..], b, k);
    }
  }

  lemma SortedTail(s: seq<CourseView>)
    requires SortedByStart(s) && s != []
    ensures SortedByStart(s[1..])
  {
    forall i, j | 0 <= i < j < |s[1..]| ensures StartKey(s[1..][i]) <= StartKey(s[1..][j]) {
      assert s[1..][i] == s[i + 1] && s[1..][j] == s[j + 1];
    }
  }

  lemma {:induction false} InsertByStartMultiset(s: seq<CourseView>, v: CourseView)
    ensures multiset(InsertByStart(s, v)) == multiset(s) + multiset{v}
  {
    if s != [] && StartKey(v) >= StartKey(s[0]) {
      InsertByStartMultiset(s[1..], v);
      assert s == [s[0]] + s[1..];
    }
  }

  /** A lower bound on every key of `s` and on `v` bounds every key after the insertion. */
  lemma {:induction false} InsertByStartLower(s: seq<CourseView>, v: CourseView, b: int)
    requires forall i :: 0 <= i < |s| ==> b <= StartKey(s[i])
    requires b <= StartKey(v)
    ensures forall i :: 0 <= i < |InsertByStart(s, v)| ==> b <= StartKey(InsertByStart(s, v)[i])
    decreases |s|
  {
    if s != [] && StartKey(v) >= StartKey(s[0]) {
      InsertByStartLower(s[1..], v, b);
      assert InsertByStart(s, v) == [s[0]] + InsertByStart(s[1..], v);
    }
  }

  lemma {:induction false} InsertByStartSorted(s: seq<CourseView>, v: CourseView)
    requires SortedByStart(s)
    ensures SortedByStart(InsertByStart(s, v))
  {
    if s != [] && StartKey(v) >= StartKey(s[0]) {
      var rest := InsertByStart(s[1..], v);
      SortedTail(s);
      InsertByStartSorted(s[1..], v);
      InsertByStartLower(s[1..], v, StartKey(s[0]));
      var r := [s[0]] + rest;
      assert InsertByStart(s, v) == r;
      forall i, j | 0 <= i < j < |r| ensures StartKey(r[i]) <= StartKey(r[j]) {
        assert r[j] == rest[j - 1];
        if i > 0 {
          assert r[i] == rest[i - 1];
        }
      }
    }
  }

  /** Inserting keeps, for each key, the old elements first and the new one last. */
  lemma {:induction false} InsertByStartStable(s: seq<CourseView>, v: CourseView, k: int)
    requires SortedByStart(s)
    ensures WithKey(InsertByStart(s, v), k) == WithKey(s, k) + (if StartKey(v) == k then [v] else [])
  {
    var here := if StartKey(v) == k then [v] else [];
    if s == [] {
      assert InsertByStart(s, v) == [v];
      assert WithKey([v], k) == here + WithKey([v][1..], k);
    } else if StartKey(v) < StartKey(s[0]) {
      var r := InsertByStart(s, v);
      assert r == [v] + s;
      assert r[1..] == s;
      assert WithKey(r, k) == here + WithKey(s, k);
      if StartKey(v) == k {
        WithKeyNone(s, k);
      }
    } else {
      var rest := InsertByStart(s[1..], v);
      var r := [s[0]] + rest;
      assert InsertByStart(s, v) == r;
      assert r[1..] == rest;
      SortedTail(s);
      InsertByStartStable(s[1..], v, k);
      var first := if StartKey(s[0]) == k then [s[0]] else [];
      assert WithKey(r, k) == first + WithKey(rest, k);
      assert WithKey(s, k) == first + WithKey(s[1..], k);
    }
  }

  /** In a sorted list every element is at least the first, so none has a key below it. */
  lemma {:induction false} WithKeyNone(s: seq<CourseView>, k: int)
    requires SortedByStart(s) && s != [] && k < StartKey(s[0])
    ensures WithKey(s, k) == []
    decreases |s|
  {
    if |s| > 1 {
      SortedTail(s);
      WithKeyNone(s[1..], k);
    }
  }

  /**
   * The sort orders by start key, keeps every element, and is stable: the
   * elements of any one key appear in their original order.
   */
  lemma {:induction false} SortByStartSpec(vs: seq<CourseView>)
    ensures SortedByStart(SortByStart(vs))
    ensures multiset(SortByStart(vs)) == multiset(vs)
    ensures forall k :: WithKey(SortByStart(vs), k) == WithKey(vs, k)
  {
    if vs != [] {
      var prefix := vs[..|vs| - 1];
      var v := vs[|vs| - 1];
      SortByStartSpec(prefix);
      InsertByStartSorted(SortByStart(prefix), v);
      InsertByStartMultiset(SortByStart(prefix), v);
      SplitLast(vs);
      forall k ensures WithKey(SortByStart(vs), k) == WithKey(vs, k) {
        InsertByStartStable(SortByStart(prefix), v, k);
        WithKeyAppend(prefix, [v], k);
      }
    }
  }

  // ---------------------------------------------------------------------
  // findCourses
  // ---------------------------------------------------------------------

  /** What `findCourses(tokens)` returns. */
  function FoundCourses(search: Searcher, entries: seq<IndexEntry>, courseMap: map<MapKey, CourseItem>,
                        tokens: seq<string>): seq<CourseView> {
    SortByStart(Views(courseMap, Candidates(search, entries, tokens)))
  }

  /**
   * Every course found is a positive hit that no exclusion hit, looked up
   * under its string id; every such hit with a map entry is found; the
   * list is sorted by start.
   */
  lemma FoundCoursesSpec(search: Searcher, entries: seq<IndexEntry>, courseMap: map<MapKey, CourseItem>, tokens: seq<string>)
    ensures var found := FoundCourses(search, entries, courseMap, tokens);
            var positive := search(entries, Join(Keywords(tokens), " "));
            var negative := if |NotKeywords(tokens)| > 0 then search(entries, Join(NotKeywords(tokens), " ")) else [];
            SortedByStart(found)
            && (forall v :: v in found ==>
                  v.id.StrKey? && v.id.s in positive && v.id.s !in negative && GetCourseJsonById(courseMap, v.id) == Some(v))
            && (forall x :: x in positive && x !in negative && StrKey(x) in courseMap ==>
                  GetCourseJsonById(courseMap, StrKey(x)).value in found)
  {
    var positive := search(entries, Join(Keywords(tokens), " "));
    var negative := if |NotKeywords(tokens)| > 0 then search(entries, Join(NotKeywords(tokens), " ")) else [];
    var ids := Candidates(search, entries, tokens);
    ExcludeSpec(positive, negative);
    assert ids == Exclude(positive, negative);
    var views := Views(courseMap, ids);
    ViewsSpec(courseMap, ids);
    SortByStartSpec(views);
    var found := SortByStart(views);
    assert forall v :: v in found <==> v in views by {
      forall v ensures v in found <==> v in views {
        assert v in found <==> v in multiset(found);
        assert v in views <==> v in multiset(views);
      }
    }
  }

  /** `findCourses(tokens)` against the cached index. */
  method FindCourses(cache: CourseIndexCache, search: Searcher, tokens: seq<string>) returns (courses: seq<CourseView>)
    ensures courses == FoundCourses(search, cache.entries, cache.courseMap, tokens)
  {
    var keywords, notKeywords := SplitTokens(tokens);
    var results := search(cache.entries, Join(keywords, " "));
    if |notKeywords| > 0 {
      var negatedResults := search(cache.entries, Join(notKeywords, " "));
      results := Exclude(results, negatedResults);
    }
    courses := CollectViews(cache.courseMap, results);
    courses := SortByStart(courses);
  }
}
