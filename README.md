# mpkbot course watcher, modelled in Dafny

mpkbot watches the public training calendar of MPK (Maanpuolustuskoulutusyhdistys) and
emails its users when new courses match their saved searches. This project models the
pipeline's core:

- **Change detection** (`crawler.dfy`). The catalog is crawled unit by unit, a page of
  100 listing items at a time. Each item's `/Date(n)/` start is rewritten to Unix
  seconds. The item is hashed over a key-sorted canonical form, and a four-way decision
  says whether it goes on the crawl queue. Queued courses are marked pending before the
  message is sent. The detail crawl then writes the full course record and
  acknowledges the queue message.
- **Search index** (`course_index.dfy`). The index is rebuilt from a full Courses scan,
  gated by a status marker. Queries split tokens into include and exclude lists, drop
  ids with no stored course, and sort stably by start time, with a missing start
  counting as 0.
- **Notification runner** (`notification_runner.dfy`):
  - the once-per-(user, course) filter;
  - the identity lookup, the email, and the record writes that follow a successful
    send;
  - the scan over all subscriptions and the notification-queue handler.
- **Subscriptions** (`subscriptions.dfy`):
  - token normalisation (trim, keep length > 1, dedupe in first-occurrence order);
  - creating a subscription;
  - deleting one together with the records it triggered, through the
    `TriggeredSubscription` index;
  - deleting a user's whole account.
- **Table readers** (`table_readers.dfy`). The `ExclusiveStartKey` / `LastEvaluatedKey`
  pagination shared by `scanTable` and `queryTable`.

The DynamoDB tables, the status marker and the queues are fields of the class
`Store.Store`:

- Courses, keyed by the decimal text of the course id;
- Notifications, keyed by (user, course);
- Subscriptions, keyed by (user, subscription id).

The queues and the identity and mail services are logs the methods append to. The
module state of the search index is the class `CourseIndex.CourseIndexCache`. Every
outside service enters as a parameter, bundled in `CrawlEnv`, `DetailEnv`, `NotifyEnv`
and `SubscriptionsEnv`:

- HTTP fetches and the HTML extraction;
- the sha256 digest;
- the full-text search;
- the user pool lookup;
- the email send;
- the success of each write or send;
- the clock;
- the DynamoDB page responses.

Supporting modules:

- `text.dfy`: decimal text and `parseInt`, `Array.join`, string order, and UTF-16
  length.
- `course_json.dfy`: the listing item as an ordered field list, with its canonical
  form and the `/Date(n)/` extraction.
- `store.dfy`: the data model.
- `wrappers.dfy`: `Option` and `Result`.
- `seqs.dfy`: splitting sequences at a position, shared by the proofs over prefixes.

Two behaviours of the code shape what the model proves:

- `item.Alkuaika.match(...)[0]` (functions/crawler.ts:29) throws on a listing item
  without `/Date(n)/`, before the null check on the next line can apply, and the
  exception ends the whole `crawl` run; the model stops the crawl with `NoDate`.
- `cognitoClient.send` (functions/notification-runner.ts:41) sits outside the try
  around the email send, so a failed user lookup propagates out of
  `runNotifications`, and the subscriptions after it are not handled in that run.

## Model

| member | source | states |
|---|---|---|
| CourseJson.GetHasKey | functions/crawler.ts:29 | reading `item[key]` finds a value exactly when the item has that key, and the value found is the item's own field |
| CourseJson.PutGet | functions/crawler.ts:36 | assigning `item.Alkuaika` makes that field read back the new value and leaves every other field as it was |
| CourseJson.PutKeepsKeys | functions/crawler.ts:36 | assigning an existing field keeps the item's keys and their order |
| CourseJson.ValueMapFields | functions/crawler.ts:51-58 | for an item with distinct keys, a field belongs to the item exactly when the key-to-value map sends its key to its value |
| CourseJson.InsertByKeyMultiset | functions/crawler.ts:53-58 | inserting a field into the key-sorted list keeps every field, adding exactly the new one |
| CourseJson.InsertByKeyAscending | functions/crawler.ts:53-58 | inserting a new key into a strictly ascending list keeps it strictly ascending |
| CourseJson.CanonicalForm | functions/crawler.ts:51-58 | the canonical form is a permutation of the item's fields whose keys are strictly ascending |
| CourseJson.CanonicalIgnoresOrder | functions/crawler.ts:51-60 | two items with the same key-to-value map have the same canonical form, hence the same hash |
| CourseJson.DigitRunEndSpec | functions/crawler.ts:29 | the digit run found from a position is all digits and is followed by a non-digit or the end |
| CourseJson.DateMatchAtSpec | functions/crawler.ts:29 | a `/Date(n)/` token starts at a position exactly when the position yields a value, and the value is the decimal value of its digits |
| CourseJson.FirstDateFromSpec | functions/crawler.ts:29 | the value found is that of the first `/Date(n)/` token from the start position on; none is found only when no position matches |
| CourseJson.DateOfEncoded | functions/crawler.ts:29-30 | the text `/Date(n)/` of any natural n parses back to n |
| Text.DigitsValueOfNatText | functions/notification-runner.ts:145 | the decimal text of a natural number is all digits and reads back as that number |
| Text.NatTextInjective | functions/crawler.ts:179 | two different naturals have different decimal texts, so index keys never collide |
| Text.DigitPrefixOfDigits | functions/notification-runner.ts:145 | the leading-digit prefix that `parseInt` reads is the whole string when the string is all digits |
| Text.ParseIntOfIntText | functions/notification-runner.ts:145 | `parseInt` of the decimal text of any integer, negative ones included, yields that integer |
| Text.StrLessIrreflexive | functions/crawler.ts:54 | the key order of `sort()` relates no string to itself |
| Text.StrLessAsymmetric | functions/crawler.ts:54 | the key order never relates two strings both ways |
| Text.StrLessTransitive | functions/crawler.ts:54 | the key order is transitive |
| Text.StrLessTotal | functions/crawler.ts:54 | any two distinct strings are ordered one way or the other |
| Text.Utf16Length | functions/subscriptions.ts:20 | a string's `.length` counts at least one unit per character |
| Crawler.ParseListingItemCases | functions/crawler.ts:28-37 | an item is accepted exactly when it has a `/Date(n)/` start and a `TapahtumaID` that is a number or the decimal text of an integer; a missing date throws before a bad id does; the entry keeps the raw id, whose `toString()` is the course key, and the item with `Alkuaika` replaced by whole seconds of the first date found |
| Crawler.CourseIdOfSpec | functions/crawler.ts:33-37 | an id value names course n exactly when it is the number n or the text of n, so `"123"` and `123` give the same key; such a value is truthy unless it is the number 0 |
| Crawler.ListingItemRewrite | functions/crawler.ts:36 | the rewritten item holds the seconds value under `Alkuaika` and every other field unchanged |
| Crawler.EnqueueDecision | functions/crawler.ts:79-98 | no stored record means enqueue; a pending record is never enqueued; a different or missing hash means enqueue; an equal hash enqueues exactly when a last-crawl time exists and at least 25 whole hours have passed |
| Crawler.PushToCrawl | functions/crawler.ts:101-123 | only the course's record changes: it becomes pending, or a pending stub if it was absent; one `{courseId, courseJsonItem}` message is queued exactly when the send succeeds |
| Crawler.UpdateCourseFromJson | functions/crawler.ts:62-99 | when the decision says enqueue, the course is marked pending and the message is queued if the send succeeds; otherwise neither the table nor the queue changes |
| Crawler.StepItems | functions/crawler.ts:28-38 | once an item has thrown, later items change nothing |
| Crawler.Entries | functions/crawler.ts:28-38 | a page whose items all parse yields one entry per item |
| Crawler.EntriesParse | functions/crawler.ts:28-38 | each entry is the parse of the item at the same position |
| Crawler.StepItemsParsed | functions/crawler.ts:28-38 | a page processed without an exception had every item parse |
| Crawler.StepItemParses | functions/crawler.ts:29-37 | an item processed without an exception parses |
| Crawler.LastIdOfSpec | functions/crawler.ts:33 | `loopLastCourseId` is the last truthy raw id of the page, with nothing truthy after it, or undefined when every id is falsy |
| Crawler.MarkPendingFresh | functions/crawler.ts:104-122 | marking a course that was not pending, and sending its message, keeps the crawl's freshness invariant |
| Crawler.StepItemFresh | functions/crawler.ts:36-37 | one item keeps the freshness invariant: pending records stay pending, and each message sent is for a course that was not pending before and is pending now |
| Crawler.StepItemsFresh | functions/crawler.ts:28-38 | a whole page keeps the freshness invariant |
| Crawler.StepItemsAppends | functions/crawler.ts:28-38 | processing items only appends to the messages sent |
| Crawler.FreshCompose | functions/crawler.ts:47 | freshness over two successive stretches is freshness over both, so a course is queued at most once per crawl |
| Crawler.FailedSendStaysPending | functions/crawler.ts:104-122 | a send that fails after the pending mark leaves the course pending, so a later listing of it queues nothing |
| Crawler.StepItemsStops | functions/crawler.ts:28-38 | after the first exception the rest of the page is not processed |
| Crawler.NextRequest | functions/crawler.ts:40-48 | a next page is requested exactly when the page had 100 items; it carries the unit and the page's last id, and starts at the last date, or a day later when the last id equals the previous page's |
| Crawler.StepItemsSnoc | functions/crawler.ts:28-38 | processing one more item is one more loop turn |
| Crawler.ProcessListingItem | functions/crawler.ts:29-37 | one loop turn updates the table and the queue as the item step says, and returns the parsed entry |
| Crawler.EntriesSnoc | functions/crawler.ts:32-33 | after one more parsed item, the entries grow by it and the last nonzero id is updated |
| Crawler.ProcessListingItems | functions/crawler.ts:26-38 | the loop leaves the table and the queue as the step function says; on success it returns the last nonzero id and the last item's date |
| Crawler.PageFresh | functions/crawler.ts:26-38 | processing a page against any table appends only fresh messages: each is for a course that was not pending and is pending afterwards, and pending records stay pending |
| Crawler.StepItemsErrors | functions/crawler.ts:28-38 | a page either completes or stops with a missing date, a bad id or a failed send |
| Crawler.RunListingFresh | functions/crawler.ts:12-49 | a whole listing, followed page after page, keeps freshness, so no course is queued twice in one listing |
| Crawler.RunListingErrors | functions/crawler.ts:12-49 | a listing ends on a short page, on a failed fetch, which is swallowed, or with one of the three exceptions of a page |
| Crawler.CrawlCourseListing | functions/crawler.ts:12-49 | the table, the queue and the outcome are exactly those of the listing fold: the page's items in order, then, after a full page, the listing from the request it implies; the requests form that chain from the first one and end on a failed fetch, a short page or an exception |
| Crawler.FollowNextPage | functions/crawler.ts:40-48 | after a full page the next request is the one the page implies, and the table, the queue and the outcome are those of the listing from it |
| Crawler.IndexUnitIds | functions/crawler.ts:178-179 | `for...in` visits one key per listed unit |
| Crawler.ListedUnitIds | functions/crawler.ts:178 | one id per listed unit |
| Crawler.CrawlUnits | functions/crawler.ts:175-182 | the table, the queue and the failure are exactly those of the fold over the units in order, each listed from now; an exception ends the run; each unit's requests form its listing chain |
| Crawler.CrawlNextUnit | functions/crawler.ts:179-181 | one more unit advances the fold by that unit's listing, and its requests form the listing chain |
| Crawler.UnitsStep | functions/crawler.ts:179-181 | the fold over one more unit is the fold so far followed by that unit's listing from now |
| Crawler.RunUnitsFresh | functions/crawler.ts:175-182 | the whole crawl keeps freshness: a course is queued at most once per run, and only when it was not pending |
| Crawler.RunUnitsStops | functions/crawler.ts:179-181 | after an exception the later units are not crawled |
| Crawler.Crawl | functions/crawler.ts:175-182 | the table, the queue and the failure are those of the fold over the index texts "0".."19", in order, each the first request of its chain |
| Crawler.CrawlListedUnits | functions/crawler.ts:178 | the table, the queue and the failure are those of the fold over the listed unit ids, in order |
| Crawler.IndexUnitsMissListed | functions/crawler.ts:178-179 | unit 22 is listed but never crawled, and "0" is crawled though not listed |
| Crawler.ListedUnitsAllRequested | functions/crawler.ts:178 | every listed unit is crawled by the corrected loop |
| Crawler.EndTimeOf | functions/crawler.ts:164 | a stored end time is never 0, because a falsy parsed value is written as NULL |
| Crawler.DoCourseCrawl | functions/crawler.ts:125-172 | the put replaces the course record with the detail record, or the crawl throws and the table is unchanged |
| Crawler.CrawledRecordIsFresh | functions/crawler.ts:153-170 | the written record is not pending, carries the job's hash and the crawl time, and is re-queued later only on a hash change or after 25 hours |
| Crawler.ListingAfterDetailCrawl | functions/crawler.ts:86-92 | when the listing and the detail crawl hash with the same digest, re-listing the item a job came from changes nothing until 25 hours after the crawl, and from then on sends the job again |
| Crawler.SentJobsHaveStart | functions/crawler.ts:36-37 | every queued job carries a numeric `Alkuaika`, so its detail crawl passes the start-time check |
| Crawler.HandleRecordsAcks | functions/crawler.ts:184-195 | the messages deleted are, in order, a prefix of the batch whose crawls succeeded; a failing record stops the batch and keeps its message: either its crawl threw, or its course was written and its delete failed |
| Crawler.HandleRecordsSettles | functions/crawler.ts:184-195 | after a batch that completes, every crawled course is stored and not pending |
| Crawler.HandleSqsCrawlEvent | functions/crawler.ts:184-195 | the table, the deletion log and the failure are exactly those of the batch fold: crawl, write, then delete each message, stopping at the first exception |
| Crawler.HandleRecordsStops | functions/crawler.ts:185-194 | records after the first failure are not processed |
| TableReaders.Paginate | functions/dynamodb/scan-query-table.ts:8-14 | the first request is the given one; each next one sets `ExclusiveStartKey` to the previous `LastEvaluatedKey`; only the last response lacks it; the result is every page's items in page order |
| TableReaders.ChainItemsAnyBound | functions/dynamodb/scan-query-table.ts:8-14 | the items a read returns do not depend on the bound the chain of pages was shown to end within |
| TableReaders.ScanRequest | functions/dynamodb/scan-query-table.ts:4-6 | a scan names only the table |
| TableReaders.QueryRequest | functions/dynamodb/scan-query-table.ts:20-27 | the caller's parameters all appear and win over `TableName` |
| TableReaders.ScanTable | functions/dynamodb/scan-query-table.ts:3-17 | the scan follows the keys from the bare table request and returns all items in page order |
| TableReaders.QueryTable | functions/dynamodb/scan-query-table.ts:19-38 | the query follows the keys from the merged request and returns all items in page order |
| TableReaders.ChunkedChainReadsRest | functions/dynamodb/scan-query-table.ts:8-14 | against a table served in chunks, reading from any start key ends and returns the rest of the table |
| TableReaders.ScanReadsWholeTable | functions/dynamodb/scan-query-table.ts:3-17 | against a table served in chunks, a scan returns the whole table in order |
| CourseIndex.ViewOfScanned | functions/courseindex/courseindex.ts:110-126 | in a map a rebuild filled, a course is found exactly under the text of a scanned id and never under a number; the view shows the last item scanned with that id: its name, location, time text, start and end (null when absent), description, and the link ending in the id text |
| CourseIndex.IndexEntries | functions/courseindex/courseindex.ts:31-35 | one index entry per scanned item: its id text and the name, location and description text |
| CourseIndex.DocMapExactly | functions/courseindex/courseindex.ts:29-37 | the map holds exactly the scanned items, under their string ids; the last of equal ids wins; no numeric key is present |
| CourseIndex.BuildIndex | functions/courseindex/courseindex.ts:29-37 | the loop over the scanned items yields one index entry per item in scan order and the id map of those items, the last of equal ids winning |
| CourseIndex.CourseIndexCache.PopulateCourseIndex | functions/courseindex/courseindex.ts:13-42 | on a skip nothing changes; otherwise the version becomes the marker or 0 before the scan; a scan that resolves leaves the index and the map holding exactly the scanned items, with nothing kept from before, and one that throws propagates and keeps the old index |
| CourseIndex.PopulateIdempotent | functions/courseindex/courseindex.ts:13-42 | refreshing twice against the same marker and table is refreshing once; after a rebuild an unforced call skips exactly when the marker is truthy |
| CourseIndex.ResetForcesRebuild | functions/courseindex/courseindex.ts:44-55 | after the version is reset to 0 the next call rebuilds from the table, whatever the marker |
| CourseIndex.FailedScanPinsStaleIndex | functions/courseindex/courseindex.ts:22-23 | a scan that throws after the version was recorded keeps the old index, and every later unforced call under the same truthy marker skips, whatever the table then holds |
| CourseIndex.CourseIndexCache.TriggerCourseIndexUpdated | functions/courseindex/courseindex.ts:44-55 | the marker is stamped with now and the version reset to 0, so the next population rebuilds |
| CourseIndex.TokenPartition | functions/courseindex/courseindex.ts:79-85 | every token lands in exactly one list, counted with repetition |
| CourseIndex.TokenStep | functions/courseindex/courseindex.ts:79-85 | each token is appended to the end of its list, so order is kept |
| CourseIndex.KeywordsSpec | functions/courseindex/courseindex.ts:80-84 | the keywords are exactly the tokens not starting with `-` |
| CourseIndex.NotKeywordsSpec | functions/courseindex/courseindex.ts:80-81 | the exclusions, with `-` put back, are exactly the tokens starting with `-` |
| CourseIndex.SplitTokens | functions/courseindex/courseindex.ts:77-85 | the loop builds exactly the two lists |
| CourseIndex.ExcludeSpec | functions/courseindex/courseindex.ts:93-96 | a hit survives exactly when it is not a negated hit; no exclusions keep every hit |
| CourseIndex.ViewsSpec | functions/courseindex/courseindex.ts:98-104 | every view is a lookup of a hit under its string id; every hit with a map entry gives a view; the rest are dropped |
| CourseIndex.CollectViews | functions/courseindex/courseindex.ts:98-104 | the loop collects exactly those views, in hit order |
| CourseIndex.WithKeyAppend | functions/courseindex/courseindex.ts:106 | the elements with one start key split over a concatenation |
| CourseIndex.SortedTail | functions/courseindex/courseindex.ts:106 | a suffix of a sorted list is sorted |
| CourseIndex.InsertByStartMultiset | functions/courseindex/courseindex.ts:106 | insertion adds exactly the new element |
| CourseIndex.InsertByStartSorted | functions/courseindex/courseindex.ts:106 | insertion keeps the list sorted by start, null as 0 |
| CourseIndex.InsertByStartStable | functions/courseindex/courseindex.ts:106 | insertion puts the new element after all earlier ones with the same start |
| CourseIndex.WithKeyNone | functions/courseindex/courseindex.ts:106 | a sorted list has no element below its first start |
| CourseIndex.SortByStartSpec | functions/courseindex/courseindex.ts:106 | the result is sorted by start, null as 0; it is a permutation; equal starts keep their order |
| CourseIndex.FoundCoursesSpec | functions/courseindex/courseindex.ts:76-109 | the result is sorted; every course is a positive hit that no exclusion hit; every such hit with a stored course is returned |
| CourseIndex.FindCourses | functions/courseindex/courseindex.ts:76-109 | the courses returned are the found courses of the current index |
| NotificationRunner.AsyncFilterAppend | functions/notification-runner.ts:86-87 | the filter distributes over concatenation, so kept elements keep their order |
| NotificationRunner.AsyncFilterMembers | functions/notification-runner.ts:86-87 | the kept elements are exactly the elements the predicate accepts, a sub-multiset of the input |
| NotificationRunner.NotYetNotifiedSpec | functions/notification-runner.ts:15-33 | a matched course is kept exactly when no record exists for it and the user |
| NotificationRunner.CourseIds | functions/notification-runner.ts:67-69 | one id per course, in order |
| NotificationRunner.PutRecordsSpec | functions/notification-runner.ts:67-80 | the puts write the record under (user, course) for each sent course and change no other record |
| NotificationRunner.PutsBeforeFailure | functions/notification-runner.ts:67-80 | the number of writes that succeed before the first one that fails is at most the number of courses |
| NotificationRunner.PutsBeforeFailureSpec | functions/notification-runner.ts:67-83 | every write before that point succeeds, and the write at that point fails |
| NotificationRunner.NotifyUserOfCourses | functions/notification-runner.ts:35-84 | the user is always looked up, and a failed lookup throws with nothing sent or written; a failed send writes nothing; after a send, records are written for the courses up to the first failed write, and those stay |
| NotificationRunner.RecordSentCourses | functions/notification-runner.ts:67-80 | the write loop stores the record for each course until the first failed write |
| NotificationRunner.SuppressedTrans | functions/notification-runner.ts:96-102 | no-repeat stretches compose across successive subscriptions |
| NotificationRunner.SuppressedRefl | functions/notification-runner.ts:113-115 | doing nothing sends no repeat |
| NotificationRunner.FilteredSendSuppressed | functions/notification-runner.ts:105-116 | sending the filtered courses, then writing any prefix of their records, sends no course already recorded for the user and keeps every old record |
| NotificationRunner.SuppressionAcrossSubscriptions | functions/notification-runner.ts:15-33 | once a course is recorded for a user, no subscription of that user passes it through the filter again |
| NotificationRunner.NotifyMatches | functions/notification-runner.ts:108-115 | the records, the mail log, the lookups and the exception afterwards are those of the one-subscription outcome: nothing when no match is left; otherwise the lookup, a failure of which throws; after an accepted send the records up to the first failed put |
| NotificationRunner.NotifyOutcomeCases | functions/notification-runner.ts:35-45 | the user is looked up exactly when a match is left; an exception leaves exactly when that lookup fails, with nothing sent or written; at most one email is sent, to that user, naming exactly the courses left after the filter |
| NotificationRunner.NotifyOutcomeSuppressed | functions/notification-runner.ts:105-116 | handling one subscription sends no course recorded for the user beforehand and changes no record |
| NotificationRunner.HandleOneSuppressed | functions/notification-runner.ts:105-116 | refreshing the index and then notifying sends no repeat, whether or not the refresh throws |
| NotificationRunner.DoHandleSubscriptionNotification | functions/notification-runner.ts:105-116 | the index state, the mail state and the exception are those of refreshing the index, a throwing scan propagating, and then notifying the user of the matches the refreshed index finds |
| NotificationRunner.RunNotifications | functions/notification-runner.ts:89-103 | a throwing index refresh ends the run with nothing mailed; otherwise the subscriptions are the whole scan, and the index, the mail state and the exception are those of the fold over them in scan order |
| NotificationRunner.HandleNextJob | functions/notification-runner.ts:96-102 | one loop turn advances the fold by the next subscription |
| NotificationRunner.HandleJobsSuppressed | functions/notification-runner.ts:96-102 | a whole run sends no course recorded for its user before the run, across all of that user's subscriptions, and changes no record |
| NotificationRunner.HandleJobsStops | functions/notification-runner.ts:96-102 | a prefix of the subscriptions is handled: all of them when nothing threw, and otherwise the next one is the one that threw |
| NotificationRunner.HandleJobsThrown | functions/notification-runner.ts:96-102 | after the first exception the later subscriptions are not handled |
| NotificationRunner.Handles | functions/notification-runner.ts:124-127 | one receipt handle per record, in order |
| NotificationRunner.HandleSqsHandleNotificationEvent | functions/notification-runner.ts:118-129 | the index, the mail state, the deletion log and the exception are those of the batch fold: handle, then delete, each message in order, stopping at the first exception |
| NotificationRunner.HandleNextMessage | functions/notification-runner.ts:119-128 | one loop turn advances the batch fold by the next message |
| NotificationRunner.HandleMessagesAcks | functions/notification-runner.ts:118-129 | the handles deleted are those of a prefix of the batch, in order, and all of them when nothing threw |
| NotificationRunner.HandleMessagesBlame | functions/notification-runner.ts:118-129 | when the batch threw, the message right after the deleted prefix threw while handled or failed to delete |
| NotificationRunner.HandleMessagesSuppressed | functions/notification-runner.ts:118-129 | a batch sends no course recorded for its user before the batch |
| NotificationRunner.HandleMessagesThrown | functions/notification-runner.ts:118-129 | after the first exception the later messages are not handled |
| NotificationRunner.NotifiedCourseAsWrittenNeverFinds | functions/notification-runner.ts:145 | looking a notified course up by its parsed number finds nothing in a map that the index rebuild filled |
| NotificationRunner.NotifiedCourseFinds | functions/notification-runner.ts:145 | looking it up by its id text finds the stored course |
| NotificationRunner.NotifiedCourseDiscrepancy | functions/notification-runner.ts:145 | for a stored course "42", the lookup as written returns undefined and the lookup by text finds it |
| Subscriptions.TrimStart | functions/subscriptions.ts:19 | removing leading white space never lengthens the token |
| Subscriptions.TrimEnd | functions/subscriptions.ts:19 | removing trailing white space never lengthens the token |
| Subscriptions.TrimStartSpec | functions/subscriptions.ts:19 | the result is a suffix, everything removed is white space, and the result starts with non-white space |
| Subscriptions.TrimEndSpec | functions/subscriptions.ts:19 | the result is a prefix, everything removed is white space, and the result ends with non-white space |
| Subscriptions.TrimSpec | functions/subscriptions.ts:19 | `trim()` yields a contiguous infix whose removed ends are white space and whose own ends are not |
| Subscriptions.TrimFixed | functions/subscriptions.ts:19 | trimming twice is trimming once |
| Subscriptions.KeepLongSpec | functions/subscriptions.ts:20 | the kept tokens are exactly those longer than one UTF-16 unit; a list of such tokens is kept whole |
| Subscriptions.IndexOf | functions/subscriptions.ts:21 | `indexOf` is -1 exactly when the value is absent, else the position of its first occurrence |
| Subscriptions.FirstOccurrencesSpec | functions/subscriptions.ts:21 | the dedupe keeps exactly the values whose first occurrence is in range, ordered by first occurrence |
| Subscriptions.FirstOccurrencesOfDistinct | functions/subscriptions.ts:21 | a list without duplicates is kept whole |
| Subscriptions.DistinctSpec | functions/subscriptions.ts:21 | the dedupe keeps every value exactly once, in first-occurrence order, and keeps a duplicate-free list unchanged |
| Subscriptions.TrimAll | functions/subscriptions.ts:19 | one trimmed token per token, in order |
| Subscriptions.FilterTokensSpec | functions/subscriptions.ts:18-21 | every kept token is trimmed and longer than one unit; exactly such trimmed tokens are kept; each once, in first-occurrence order |
| Subscriptions.FilterTokensIdempotent | functions/subscriptions.ts:18-21 | filtering filtered tokens changes nothing |
| Subscriptions.StringsSpec | functions/subscriptions.ts:18 | `tokens.map(e => e.trim())` gets through an array exactly when every element is a string, and then sees those strings in order |
| Subscriptions.RequestTokensCases | functions/subscriptions.ts:15-18 | reading the body throws exactly on malformed JSON, a `null` body, a truthy `tokens` that is not an array, or an array holding a non-string; an absent or falsy `tokens` gives no token; an array of strings gives those strings in order |
| Subscriptions.AddSubscription | functions/subscriptions.ts:14-68 | a body the handler cannot read throws with nothing written; an empty filtered list answers 400 `{error: 'token'}` with no write; a failed put throws with nothing written; otherwise the filtered tokens are stored, and a successful send then queues one message carrying them and answers 200 with the new id, while a failed send throws and leaves the subscription stored but never queued |
| Subscriptions.RowCourses | functions/subscriptions.ts:88-97 | one course id per answered row, in order |
| Subscriptions.DeleteRecordsSpec | functions/subscriptions.ts:88-97 | the deletes remove exactly the user's records for the listed courses and change no other record |
| Subscriptions.DeleteAnsweredRecords | functions/subscriptions.ts:75-97 | deleting the courses that the index answer lists removes exactly the user's records that the subscription triggered |
| Subscriptions.AnswersIndexQuerySubmap | functions/subscriptions.ts:75-87 | an index answer stays correct after records are removed |
| Subscriptions.DoDeleteSubscription | functions/subscriptions.ts:70-110 | exactly the user's records triggered by the subscription are removed, all others stay, and then the subscription is removed |
| Subscriptions.DeleteListedRecords | functions/subscriptions.ts:88-97 | the delete loop removes the listed courses' records for the user |
| Subscriptions.RowSubscriptions | functions/subscriptions.ts:172-174 | one subscription id per answered row, in order |
| Subscriptions.Members | functions/subscriptions.ts:172-174 | the set of ids holds exactly the listed ids |
| Subscriptions.WithoutStep | functions/subscriptions.ts:172-174 | deleting one more subscription removes its records and its row from what earlier deletes left |
| Subscriptions.AnswersAfterDelete | functions/subscriptions.ts:172-174 | the index answers for the remaining subscriptions stay correct as earlier deletes remove records |
| Subscriptions.DeleteMyself | functions/subscriptions.ts:162-192 | every subscription of the user is removed with the records it triggered; then the user is deleted from the pool, and when that throws the data is already gone and the user stays |
| Subscriptions.DeleteEach | functions/subscriptions.ts:172-174 | the loop removes each listed subscription and its triggered records |
| Subscriptions.DeleteMyselfLeaves | functions/subscriptions.ts:162-192 | the user has no subscription left; other users' subscriptions are untouched; a record stays exactly when it is another user's or its subscription was not listed, so orphan records remain |

## Left out

- HTTP fetches of listing and detail pages, cheerio selectors and their HTML: the
  pages come from `fetchListing` / `fetchDetail` oracles that return the extracted
  strings. The `end` date in the listing URL is not modelled.
- sha256 over `JSON.stringify`: the digest is a function parameter applied to the
  canonical field list.
- moment: the listing start is milliseconds; the strict `"D.M.YYYY H.mm"` end-time
  parse is a `parseEnd` parameter. Time zones are not modelled.
- flexsearch tokenisation and `minlength`: the search is a `Searcher` parameter from
  the index entries and the query to the hit ids.
- Failures that are modelled, each as a success oracle: the listing and detail
  fetches, the user pool lookup, the email send, the per-course record puts, the
  crawl and notification queue sends and deletes, the subscription put, the
  AdminDeleteUser call and the Courses scan of an index rebuild.
- Crawler.UpdateCourseFromJson: a throwing `getItem` or `updateItem` is not modelled;
  both are taken to resolve.
- Crawler.DoCourseCrawl: the put is taken to succeed whenever the record validates. A
  failing put is not modelled separately from a thrown validation.
- NotificationRunner.NotifyMatches: the `getItem` of `shouldNotify` is taken to resolve.
- Crawler.CrawlCourseListing: the chain of full listing pages is assumed to end, as
  are the chains of `CrawlUnits`, `Crawl` and `CrawlListedUnits`; the code calls
  itself again after every full page and relies on the remote calendar to run out.
- CourseIndex.CourseIndexCache.PopulateCourseIndex: the Courses scan is assumed to
  end; `scanTable` loops while `LastEvaluatedKey` is present, and only the service
  ends that chain. The notification runner's methods assume the same of the Courses
  scan they refresh from.
- NotificationRunner.RunNotifications: the Subscriptions scan is taken to resolve and
  to end; `coursesScanOk` is one outcome for the whole invocation, so a Courses scan
  cannot fail on one subscription and succeed on the next.
- CourseIndex.CourseIndexCache.PopulateCourseIndex: the `getItem` of
  `checkCourseIndexUpdated` is taken to resolve; a failing scan is one outcome for
  the whole scan, not a failure of a particular page.
- CourseIndex.CourseIndexCache.TriggerCourseIndexUpdated: the put is taken to resolve.
- Subscriptions.DoDeleteSubscription: the query and the `deleteItem` calls are taken to
  resolve. The `TriggeredSubscription` index is eventually consistent; the method
  requires that its answer lists every record the subscription triggered and names no
  record of the user that another subscription triggered (rows for records already
  gone are allowed).
- Subscriptions.DeleteMyself: the query of the user's subscriptions and the deletes
  are taken to resolve, and the query is required to list every subscription of the
  user, each with an index answer as above.
- Text.StrLess compares code points, while `Array.prototype.sort` compares UTF-16 code
  units; the two orders differ only on characters outside the Basic Multilingual Plane.
- CourseJson.Canonical: `JSON.stringify` writes integer-like keys first, in numeric
  order; course fields have no such keys, so the model orders every key as a string.
- `checkCourseIndexUpdated` is the read of `Store.courseIndexUpdatedAt`; the parse of
  the stored `N` text is not modelled separately.
- `Promise.all` in `asyncFilter`: all predicates see the same table, which is what the
  sequential filter models. Concurrency between invocations is not modelled.
- String sets (`SS`) are modelled as ordered sequences; DynamoDB keeps them unordered.
- `TableReaders.Paginate`: the page responses are oracles independent of the store's
  maps. `ScanReadsWholeTable` shows that a table served in chunks is read whole.
- The uuid of a new subscription is a parameter.
- Subscriptions.AddSubscription: `JSON.parse` of the body text is not modelled; the
  handler receives the parsed value, or none when the text is no JSON, and a throw
  anywhere in reading `tokens` is `Threw` with nothing written.
- `getSubscriptions`, `getMyNotifiedCourses` and the HTTP response shaping of the
  handlers: only the course lookup inside `getMyNotifiedCourses` is modelled. That
  handler runs as its own Lambda function and never calls `populateCourseIndex`, so
  its `courseMap` is empty unless an earlier invocation in the same container filled
  it; the corrected lookup is stated over a map a rebuild filled.
- The `|| ""` and `|| []` defaults on scanned rows are not modelled; rows are typed.
- `parseInt` skipping leading white space is not modelled; ids are decimal texts.
- Email template data other than the course ids and the joined search tokens is not
  modelled.
- Logging (`console.*`) is left out.

## Findings

| source | as written | input that shows it | evidently intended | confidence | as-written member | corrected member |
|---|---|---|---|---|---|---|
| functions/crawler.ts:178-180 | `for (const unitId in units)` iterates the array's index keys "0".."19" | unit 22 is listed but never requested, and unit "0" is requested though not listed | crawl every listed unit id (`for...of`) | high, not executed | Crawler.Crawl, Crawler.IndexUnitsMissListed | Crawler.CrawlListedUnits, Crawler.ListedUnitsAllRequested |
| functions/notification-runner.ts:145 | `getCourseJsonById(parseInt(courseId, 10))` looks the map up by a number, while `courseMap` is keyed by the string `CourseId.N` (functions/courseindex/courseindex.ts:36) | a stored course "42": the lookup by 42 returns undefined | look the course up by its id text, in a map a rebuild filled first (the handler never calls `populateCourseIndex`, so the module-level map at functions/courseindex/courseindex.ts:7 is empty in its Lambda) | high, not executed | NotificationRunner.NotifiedCourseAsWritten, NotificationRunner.NotifiedCourseAsWrittenNeverFinds, NotificationRunner.NotifiedCourseDiscrepancy | NotificationRunner.NotifiedCourse, NotificationRunner.NotifiedCourseFinds |
