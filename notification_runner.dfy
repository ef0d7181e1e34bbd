/**
 * The notification runner: for each subscription, find the courses its
 * tokens match, drop those already recorded for the user in the
 * Notifications table, and when some remain, look the user up, send one
 * email listing them and record each sent course, so that no course is
 * sent to a user twice.
 *
 * The user pool, the mail service and the record writes are parameters
 * (`NotifyEnv`): the user pool answers with the user's email attribute or
 * throws, the mail service accepts a message or throws, and each put
 * succeeds or throws. The clock is the fixed `nowSec`.
 */
module NotificationRunner {
  import opened Wrappers
  import opened Text
  import opened Store
  import opened TableReaders
  import opened Seqs
  import opened CourseIndex

  datatype NotifyEnv = NotifyEnv(
    userEmail: UserId -> Option<Option<string>>,  // AdminGetUser: None when it throws, else the `email` attribute
    sendOk: EmailMessage -> bool,                 // sendTemplatedEmail resolves
    putOk: (UserId, CourseKey) -> bool,           // putItem of that record resolves
    deleteOk: string -> bool,                     // deleteMessage of that receipt handle resolves
    coursesScanOk: bool,                          // the Courses scan of an index rebuild resolves
    nowSec: int,
    search: Searcher,
    scanCourses: Request<CourseKey> -> Page<CourseKey, CourseItem>,
    coursesTable: string,
    scanSubscriptions: Request<(UserId, string)> -> Page<(UserId, string), SubscriptionRow>,
    subscriptionsTable: string)

  // ---------------------------------------------------------------------
  // Filtering
  // ---------------------------------------------------------------------

  /** `shouldNotify(courseId, userId)`: the table holds no record for the pair. */
  predicate ShouldNotify(notifications: Notifications, courseId: MapKey, userId: UserId) {
    (userId, KeyText(courseId)) !in notifications
  }

  /**
   * `asyncFilter(arr, predicate)`: the elements the predicate keeps. Every
   * predicate runs before any result is used, so all of them see the same
   * table.
   */
  function AsyncFilter<T>(arr: seq<T>, keep: T -> bool): seq<T> {
    if arr == [] then []
    else AsyncFilter(arr[..|arr| - 1], keep) + (if keep(arr[|arr| - 1]) then [arr[|arr| - 1]] else [])
  }

  /** The filter distributes over concatenation: the kept elements stay in their order. */
  lemma {:induction false} AsyncFilterAppend<T>(a: seq<T>, b: seq<T>, keep: T -> bool)
    ensures AsyncFilter(a + b, keep) == AsyncFilter(a, keep) + AsyncFilter(b, keep)
    decreases |b|
  {
    if b == [] {
      assert a + b == a;
    } else {
      var b' := b[..|b| - 1];
      assert (a + b)[..|a + b| - 1] == a + b';
      assert (a + b)[|a + b| - 1] == b[|b| - 1];
      AsyncFilterAppend(a, b', keep);
    }
  }

  /** Exactly the elements the predicate accepts are kept, each no more often than given. */
  lemma {:induction false} AsyncFilterMembers<T>(arr: seq<T>, keep: T -> bool)
    ensures forall x :: x in AsyncFilter(arr, keep) <==> x in arr && keep(x)
    ensures multiset(AsyncFilter(arr, keep)) <= multiset(arr)
    ensures |AsyncFilter(arr, keep)| <= |arr|
  {
    if arr != [] {
      var prefix := arr[..|arr| - 1];
      AsyncFilterMembers(prefix, keep);
      assert arr == prefix + [arr[|arr| - 1]];
    }
  }

  /** The matched courses `shouldNotify` keeps for the user. */
  function NotYetNotified(notifications: Notifications, userId: UserId, courses: seq<CourseView>): seq<CourseView> {
    AsyncFilter(courses, (c: CourseView) => ShouldNotify(notifications, c.id, userId))
  }

  /** A course is kept exactly when it was matched and no record exists for it and the user. */
  lemma NotYetNotifiedSpec(notifications: Notifications, userId: UserId, courses: seq<CourseView>)
    ensures forall c :: c in NotYetNotified(notifications, userId, courses) <==>
                          c in courses && (userId, KeyText(c.id)) !in notifications
    ensures |NotYetNotified(notifications, userId, courses)| <= |courses|
  {
    var keep := (c: CourseView) => ShouldNotify(notifications, c.id, userId);
    AsyncFilterMembers(courses, keep);
  }

  // ---------------------------------------------------------------------
  // notifyUserOfCourses
  // ---------------------------------------------------------------------

  /** `course.id.toString()` of each course, in order. */
  function CourseIds(courses: seq<CourseView>): (ids: seq<CourseKey>)
    ensures |ids| == |courses|
    ensures forall i :: 0 <= i < |courses| ==> ids[i] == KeyText(courses[i].id)
  {
    seq(|courses|, i requires 0 <= i < |courses| => KeyText(courses[i].id))
  }

  /** The email for the courses: the tokens joined by spaces and the courses in order. */
  function Email(userId: UserId, to: Option<string>, searchTokens: seq<string>, courses: seq<CourseView>): EmailMessage {
    EmailMessage(userId, to, Join(searchTokens, " "), CourseIds(courses))
  }

  /** The record written for a sent course. */
  function EmailRecord(subscriptionId: string, nowSec: int): NotificationRecord {
    NotificationRecord(subscriptionId, nowSec, NotifiedByEmail)
  }

  /** The table after `rec` is put for the user and each id in turn. */
  function PutRecords(notifications: Notifications, userId: UserId, ids: seq<CourseKey>, rec: NotificationRecord): Notifications {
    if ids == [] then notifications
    else PutRecords(notifications, userId, ids[..|ids| - 1], rec)[(userId, ids[|ids| - 1]) := rec]
  }

  /** The puts add `rec` under (user, id) for each id and change no other record. */
  lemma {:induction false} PutRecordsSpec(notifications: Notifications, userId: UserId, ids: seq<CourseKey>, rec: NotificationRecord)
    ensures var r := PutRecords(notifications, userId, ids, rec);
            (forall k :: k in r <==> k in notifications || (k.0 == userId && k.1 in ids))
            && (forall id :: id in ids ==> r[(userId, id)] == rec)
            && (forall k :: k in notifications && !(k.0 == userId && k.1 in ids) ==> r[k] == notifications[k])
  {
    if ids != [] {
      var prefix := ids[..|ids| - 1];
      PutRecordsSpec(notifications, userId, prefix, rec);
      assert ids == prefix + [ids[|ids| - 1]];
    }
  }

  /** How many puts resolve before the first that throws. */
  function PutsBeforeFailure(putOk: (UserId, CourseKey) -> bool, userId: UserId, ids: seq<CourseKey>): (m: nat)
    ensures m <= |ids|
  {
    if ids == [] || !putOk(userId, ids[0]) then 0 else 1 + PutsBeforeFailure(putOk, userId, ids[1..])
  }

  /** The count is the index of the first failing put, or the length when none fails. */
  lemma {:induction false} PutsBeforeFailureSpec(putOk: (UserId, CourseKey) -> bool, userId: UserId, ids: seq<CourseKey>)
    ensures var m := PutsBeforeFailure(putOk, userId, ids);
            (forall j :: 0 <= j < m ==> putOk(userId, ids[j]))
            && (m < |ids| ==> !putOk(userId, ids[m]))
  {
    if ids != [] && putOk(userId, ids[0]) {
      PutsBeforeFailureSpec(putOk, userId, ids[1..]);
    }
  }

  /**
   * `notifyUserOfCourses`: look the user up (a failure propagates and
   * `thrown` is set), send the email, and only when it was accepted put a
   * record for each course in turn; a failing send or put is swallowed and
   * ends the writes, and the records already written stay.
   */
  method NotifyUserOfCourses(db: Store, env: NotifyEnv, userId: UserId, subscriptionId: string,
                             searchTokens: seq<string>, coursesToSend: seq<CourseView>)
    returns (thrown: bool)
    modifies db`identityLookups, db`emailsSent, db`notifications
    ensures db.identityLookups == old(db.identityLookups) + [userId]
    ensures thrown <==> env.userEmail(userId).None?
    ensures thrown ==> db.emailsSent == old(db.emailsSent) && db.notifications == old(db.notifications)
    ensures !thrown ==>
              var msg := Email(userId, env.userEmail(userId).value, searchTokens, coursesToSend);
              var ids := CourseIds(coursesToSend);
              if env.sendOk(msg) then
                db.emailsSent == old(db.emailsSent) + [msg]
                && db.notifications == PutRecords(old(db.notifications), userId,
                                                  ids[..PutsBeforeFailure(env.putOk, userId, ids)],
                                                  EmailRecord(subscriptionId, env.nowSec))
              else
                db.emailsSent == old(db.emailsSent) && db.notifications == old(db.notifications)
  {
    db.identityLookups := db.identityLookups + [userId];
    var response := env.userEmail(userId);
    if response.None? {
      return true;
    }
    thrown := false;
    var msg := Email(userId, response.value, searchTokens, coursesToSend);
    if !env.sendOk(msg) {
      return;
    }
    db.emailsSent := db.emailsSent + [msg];
    RecordSentCourses(db, env.putOk, userId, msg.courseIds, EmailRecord(subscriptionId, env.nowSec));
  }

  /**
   * The loop of `notifyUserOfCourses` that puts a record for each sent
   * course in turn; the first put that throws ends it.
   */
  method RecordSentCourses(db: Store, putOk: (UserId, CourseKey) -> bool, userId: UserId, ids: seq<CourseKey>,
                           rec: NotificationRecord)
    modifies db`notifications
    ensures db.notifications == PutRecords(old(db.notifications), userId, ids[..PutsBeforeFailure(putOk, userId, ids)], rec)
  {
    ghost var m := PutsBeforeFailure(putOk, userId, ids);
    PutsBeforeFailureSpec(putOk, userId, ids);
    var i := 0;
    while i < |ids|
      invariant i <= m
      invariant db.notifications == PutRecords(old(db.notifications), userId, ids[..i], rec)
    {
      if !putOk(userId, ids[i]) {
        break;
      }
      assert ids[..i + 1][..i] == ids[..i];
      db.notifications := db.notifications[(userId, ids[i]) := rec];
      i := i + 1;
    }
  }

  // ---------------------------------------------------------------------
  // One subscription
  // ---------------------------------------------------------------------

  /**
   * Records only accumulate, the mail log only grows, and every email sent
   * in between names only courses that had no record for its user at the
   * start: across all of a user's subscriptions, since the record key holds
   * no subscription.
   */
  ghost predicate Suppressed(notes0: Notifications, emails0: seq<EmailMessage>,
                             notes1: Notifications, emails1: seq<EmailMessage>) {
    (forall k :: k in notes0 ==> k in notes1 && notes1[k] == notes0[k])
    && |emails0| <= |emails1| && emails1[..|emails0|] == emails0
    && (forall j, id :: |emails0| <= j < |emails1| && id in emails1[j].courseIds ==>
                          (emails1[j].userId, id) !in notes0)
  }

  /** Two stretches that each suppress repeats suppress them together. */
  lemma SuppressedTrans(n0: Notifications, e0: seq<EmailMessage>, n1: Notifications, e1: seq<EmailMessage>,
                        n2: Notifications, e2: seq<EmailMessage>)
    requires Suppressed(n0, e0, n1, e1) && Suppressed(n1, e1, n2, e2)
    ensures Suppressed(n0, e0, n2, e2)
  {
    assert e2[..|e0|] == e1[..|e0|];
    forall j, id | |e0| <= j < |e2| && id in e2[j].courseIds
      ensures (e2[j].userId, id) !in n0
    {
      if j < |e1| {
        assert e2[j] == e2[..|e1|][j];
      }
    }
  }

  /** Nothing changed suppresses trivially. */
  lemma SuppressedRefl(n: Notifications, e: seq<EmailMessage>)
    ensures Suppressed(n, e, n, e)
  {
    assert e[..|e|] == e;
  }

  /**
   * The email of a filtered list names only courses without a record, and
   * recording them changes no existing record.
   */
  lemma {:induction false} FilteredSendSuppressed(notifications: Notifications, emails: seq<EmailMessage>, userId: UserId,
                                                  courses: seq<CourseView>, msg: EmailMessage, m: nat, rec: NotificationRecord)
    requires msg.userId == userId && msg.courseIds == CourseIds(NotYetNotified(notifications, userId, courses))
    requires m <= |msg.courseIds|
    ensures Suppressed(notifications, emails, PutRecords(notifications, userId, msg.courseIds[..m], rec), emails + [msg])
  {
    var filtered := NotYetNotified(notifications, userId, courses);
    NotYetNotifiedSpec(notifications, userId, courses);
    var ids := msg.courseIds;
    assert forall id :: id in ids ==> (userId, id) !in notifications by {
      forall id | id in ids ensures (userId, id) !in notifications {
        var i :| 0 <= i < |ids| && ids[i] == id;
        assert filtered[i] in filtered;
      }
    }
    PutRecordsSpec(notifications, userId, ids[..m], rec);
    assert (emails + [msg])[..|emails|] == emails;
    assert forall id :: id in ids[..m] ==> id in ids;
  }

  /** A later filter for the user drops every course recorded for them, whichever subscription wrote it. */
  lemma SuppressionAcrossSubscriptions(notifications: Notifications, userId: UserId, ids: seq<CourseKey>,
                                       rec: NotificationRecord, courses: seq<CourseView>)
    ensures forall c :: c in NotYetNotified(PutRecords(notifications, userId, ids, rec), userId, courses) ==>
                          KeyText(c.id) !in ids
  {
    PutRecordsSpec(notifications, userId, ids, rec);
    NotYetNotifiedSpec(PutRecords(notifications, userId, ids, rec), userId, courses);
  }

  /** The Courses scan the index rebuild reads ends. */
  ghost predicate CoursesScanEnds(env: NotifyEnv) {
    ChainTerminates(env.scanCourses, ScanRequest(env.coursesTable))
  }

  /** What the Courses scan returns, or None when it throws. */
  ghost function CoursesScan(env: NotifyEnv): Option<seq<CourseItem>>
    requires CoursesScanEnds(env)
  {
    if env.coursesScanOk then Some(AllItems(env.scanCourses, ScanRequest(env.coursesTable))) else None
  }

  /** Whether `populateCourseIndex` throws: it rebuilds and its scan throws. */
  predicate RefreshThrows(env: NotifyEnv, lastUpdatedInDb: Option<int>, version: int) {
    !SkipRebuild(false, lastUpdatedInDb, version) && !env.coursesScanOk
  }

  /** The Notifications table, the mail log and the user-pool lookups. */
  datatype MailState = MailState(notifications: Notifications, emails: seq<EmailMessage>, lookups: seq<UserId>)

  /** The mail state of the store. */
  function MailOf(db: Store): MailState
    reads db
  {
    MailState(db.notifications, db.emailsSent, db.identityLookups)
  }

  /** A mail state, and whether an exception left the handler. */
  datatype Notified = Notified(mail: MailState, thrown: bool)

  /**
   * The second half of `doHandleSubscriptionNotification` on a mail state:
   * with no course left after the filter nothing happens; otherwise the
   * user is looked up (a failure propagates), and only an accepted email is
   * logged and followed by the records of the puts that resolve.
   */
  function NotifyOutcome(env: NotifyEnv, s: MailState, userId: UserId, subscriptionId: string, tokens: seq<string>,
                         matchingCourses: seq<CourseView>): Notified {
    var filtered := NotYetNotified(s.notifications, userId, matchingCourses);
    if filtered == [] then Notified(s, false)
    else
      var looked := s.(lookups := s.lookups + [userId]);
      match env.userEmail(userId)
      case None => Notified(looked, true)
      case Some(to) =>
        var msg := Email(userId, to, tokens, filtered);
        var ids := CourseIds(filtered);
        if !env.sendOk(msg) then Notified(looked, false)
        else Notified(looked.(emails := s.emails + [msg],
                              notifications := PutRecords(s.notifications, userId, ids[..PutsBeforeFailure(env.putOk, userId, ids)],
                                                          EmailRecord(subscriptionId, env.nowSec))), false)
  }

  /** Notifying a user never repeats a recorded course and never changes a record. */
  lemma NotifyOutcomeSuppressed(env: NotifyEnv, s: MailState, userId: UserId, subscriptionId: string, tokens: seq<string>,
                                matchingCourses: seq<CourseView>)
    ensures var r := NotifyOutcome(env, s, userId, subscriptionId, tokens, matchingCourses).mail;
            Suppressed(s.notifications, s.emails, r.notifications, r.emails)
  {
    var filtered := NotYetNotified(s.notifications, userId, matchingCourses);
    if filtered != [] && env.userEmail(userId).Some? {
      var msg := Email(userId, env.userEmail(userId).value, tokens, filtered);
      if env.sendOk(msg) {
        FilteredSendSuppressed(s.notifications, s.emails, userId, matchingCourses, msg,
                               PutsBeforeFailure(env.putOk, userId, msg.courseIds), EmailRecord(subscriptionId, env.nowSec));
        return;
      }
    }
    SuppressedRefl(s.notifications, s.emails);
  }

  /**
   * `notifyUserOfCourses` is reached exactly when some match is left, and
   * then the lookup is logged; an exception leaves exactly when the lookup
   * fails; a sent email names exactly the courses left.
   */
  lemma NotifyOutcomeCases(env: NotifyEnv, s: MailState, userId: UserId, subscriptionId: string, tokens: seq<string>,
                           matchingCourses: seq<CourseView>)
    ensures var filtered := NotYetNotified(s.notifications, userId, matchingCourses);
            var r := NotifyOutcome(env, s, userId, subscriptionId, tokens, matchingCourses);
            r.mail.lookups == s.lookups + (if filtered == [] then [] else [userId])
            && (r.thrown <==> filtered != [] && env.userEmail(userId).None?)
            && (r.thrown ==> r.mail.emails == s.emails && r.mail.notifications == s.notifications)
            && |s.emails| <= |r.mail.emails| <= |s.emails| + 1
            && (|r.mail.emails| > |s.emails| ==>
                  r.mail.emails[|s.emails|].userId == userId
                  && r.mail.emails[|s.emails|].courseIds == CourseIds(filtered))
  {
    var filtered := NotYetNotified(s.notifications, userId, matchingCourses);
    if filtered == [] {
      assert s.lookups + [] == s.lookups;
    }
  }

  /**
   * The second half of `doHandleSubscriptionNotification`: keep the
   * matched courses not yet recorded for the user and notify the user of
   * them when any remain.
   */
  method NotifyMatches(db: Store, env: NotifyEnv, userId: UserId, subscriptionId: string, tokens: seq<string>,
                       matchingCourses: seq<CourseView>)
    returns (thrown: bool)
    modifies db`identityLookups, db`emailsSent, db`notifications
    ensures Notified(MailOf(db), thrown) == NotifyOutcome(env, old(MailOf(db)), userId, subscriptionId, tokens, matchingCourses)
  {
    var filtered := NotYetNotified(db.notifications, userId, matchingCourses);
    if |filtered| == 0 {
      return false;
    }
    thrown := NotifyUserOfCourses(db, env, userId, subscriptionId, tokens, filtered);
  }

  /** The index state and the mail state together. */
  datatype Session = Session(index: IndexState, mail: MailState)

  /** A session, and whether an exception left the handler. */
  datatype Handled = Handled(session: Session, thrown: bool)

  /**
   * `doHandleSubscriptionNotification` on a session: refresh the index
   * (a throwing scan propagates), then notify the user of the courses the
   * tokens match in the refreshed index.
   */
  ghost function HandleOne(env: NotifyEnv, lastUpdatedInDb: Option<int>, s: Session, job: NotificationJob): Handled
    requires CoursesScanEnds(env)
  {
    var index := Populated(s.index, false, lastUpdatedInDb, CoursesScan(env));
    if RefreshThrows(env, lastUpdatedInDb, s.index.version) then Handled(Session(index, s.mail), true)
    else
      var matching := FoundCourses(env.search, index.entries, index.courseMap, job.tokens);
      var r := NotifyOutcome(env, s.mail, job.userId, job.subscriptionId, job.tokens, matching);
      Handled(Session(index, r.mail), r.thrown)
  }

  /** Handling one subscription suppresses repeats. */
  lemma HandleOneSuppressed(env: NotifyEnv, lastUpdatedInDb: Option<int>, s: Session, job: NotificationJob)
    requires CoursesScanEnds(env)
    ensures var r := HandleOne(env, lastUpdatedInDb, s, job).session.mail;
            Suppressed(s.mail.notifications, s.mail.emails, r.notifications, r.emails)
  {
    var index := Populated(s.index, false, lastUpdatedInDb, CoursesScan(env));
    if RefreshThrows(env, lastUpdatedInDb, s.index.version) {
      SuppressedRefl(s.mail.notifications, s.mail.emails);
    } else {
      NotifyOutcomeSuppressed(env, s.mail, job.userId, job.subscriptionId, job.tokens,
                              FoundCourses(env.search, index.entries, index.courseMap, job.tokens));
    }
  }

  /**
   * `doHandleSubscriptionNotification`: refresh the index, find the courses
   * the tokens match, and notify the user of those not yet recorded.
   */
  method DoHandleSubscriptionNotification(cache: CourseIndexCache, db: Store, env: NotifyEnv, job: NotificationJob)
    returns (thrown: bool)
    requires CoursesScanEnds(env)
    modifies cache, db`identityLookups, db`emailsSent, db`notifications
    ensures Handled(Session(cache.State(), MailOf(db)), thrown)
            == HandleOne(env, db.courseIndexUpdatedAt, Session(old(cache.State()), old(MailOf(db))), job)
  {
    ghost var n: nat :| ChainEnds(env.scanCourses, ScanRequest(env.coursesTable), n);
    thrown := cache.PopulateCourseIndex(db, false, env.scanCourses, env.coursesTable, env.coursesScanOk, n);
    if thrown {
      return;
    }
    var matchingCourses := FindCourses(cache, env.search, job.tokens);
    thrown := NotifyMatches(db, env, job.userId, job.subscriptionId, job.tokens, matchingCourses);
  }

  // ---------------------------------------------------------------------
  // The handlers
  // ---------------------------------------------------------------------

  /** The Subscriptions scan ends. */
  ghost predicate SubscriptionsScanEnds(env: NotifyEnv) {
    ChainTerminates(env.scanSubscriptions, ScanRequest(env.subscriptionsTable))
  }

  /** The message `runNotifications` handles for a scanned row: its user, id and tokens. */
  function JobOf(row: SubscriptionRow): NotificationJob {
    NotificationJob(row.userId, row.subscriptionId, row.tokens)
  }

  /** The jobs of the rows, in scan order. */
  function Jobs(rows: seq<SubscriptionRow>): (jobs: seq<NotificationJob>)
    ensures |jobs| == |rows|
    ensures forall i :: 0 <= i < |rows| ==> jobs[i] == JobOf(rows[i])
  {
    seq(|rows|, i requires 0 <= i < |rows| => JobOf(rows[i]))
  }

  /** Where a run of jobs stands: the session, how many jobs finished, and whether one threw. */
  datatype JobsRun = JobsRun(session: Session, handled: nat, thrown: bool)

  /** The `for` loop of `runNotifications` over `jobs`; the first exception ends it. */
  ghost function HandleJobs(env: NotifyEnv, lastUpdatedInDb: Option<int>, s: Session, jobs: seq<NotificationJob>): JobsRun
    requires CoursesScanEnds(env)
    decreases |jobs|
  {
    if jobs == [] then JobsRun(s, 0, false)
    else
      var q := HandleJobs(env, lastUpdatedInDb, s, jobs[..|jobs| - 1]);
      if q.thrown then q
      else
        var h := HandleOne(env, lastUpdatedInDb, q.session, jobs[|jobs| - 1]);
        JobsRun(h.session, if h.thrown then q.handled else q.handled + 1, h.thrown)
  }

  /** The whole loop suppresses repeats: no email names a course recorded for its user before it. */
  lemma {:induction false} HandleJobsSuppressed(env: NotifyEnv, lastUpdatedInDb: Option<int>, s: Session, jobs: seq<NotificationJob>)
    requires CoursesScanEnds(env)
    ensures var r := HandleJobs(env, lastUpdatedInDb, s, jobs).session.mail;
            Suppressed(s.mail.notifications, s.mail.emails, r.notifications, r.emails)
    decreases |jobs|
  {
    if jobs == [] {
      SuppressedRefl(s.mail.notifications, s.mail.emails);
    } else {
      var q := HandleJobs(env, lastUpdatedInDb, s, jobs[..|jobs| - 1]);
      HandleJobsSuppressed(env, lastUpdatedInDb, s, jobs[..|jobs| - 1]);
      if !q.thrown {
        var h := HandleOne(env, lastUpdatedInDb, q.session, jobs[|jobs| - 1]);
        HandleOneSuppressed(env, lastUpdatedInDb, q.session, jobs[|jobs| - 1]);
        SuppressedTrans(s.mail.notifications, s.mail.emails, q.session.mail.notifications, q.session.mail.emails,
                        h.session.mail.notifications, h.session.mail.emails);
      }
    }
  }

  /**
   * The loop handles a prefix of the jobs: all of them when nothing threw,
   * and otherwise the job right after the prefix is the one that threw.
   */
  lemma {:induction false} HandleJobsStops(env: NotifyEnv, lastUpdatedInDb: Option<int>, s: Session, jobs: seq<NotificationJob>)
    requires CoursesScanEnds(env)
    ensures var r := HandleJobs(env, lastUpdatedInDb, s, jobs);
            r.handled <= |jobs|
            && (!r.thrown ==> r.handled == |jobs|)
            && (r.thrown ==> r.handled < |jobs|
                             && HandleOne(env, lastUpdatedInDb, HandleJobs(env, lastUpdatedInDb, s, jobs[..r.handled]).session,
                                          jobs[r.handled]).thrown)
    decreases |jobs|
  {
    if jobs != [] {
      var prefix := jobs[..|jobs| - 1];
      HandleJobsStops(env, lastUpdatedInDb, s, prefix);
      var q := HandleJobs(env, lastUpdatedInDb, s, prefix);
      if q.thrown {
        assert prefix[..q.handled] == jobs[..q.handled];
        assert prefix[q.handled] == jobs[q.handled];
      } else {
        assert jobs[..q.handled] == prefix;
      }
    }
  }

  /** One more job, when the earlier ones all went through. */
  lemma HandleJobsNext(env: NotifyEnv, lastUpdatedInDb: Option<int>, s: Session, jobs: seq<NotificationJob>, i: nat)
    requires CoursesScanEnds(env)
    requires i < |jobs| && !HandleJobs(env, lastUpdatedInDb, s, jobs[..i]).thrown
    ensures var q := HandleJobs(env, lastUpdatedInDb, s, jobs[..i]);
            var h := HandleOne(env, lastUpdatedInDb, q.session, jobs[i]);
            HandleJobs(env, lastUpdatedInDb, s, jobs[..i + 1])
            == JobsRun(h.session, if h.thrown then q.handled else q.handled + 1, h.thrown)
  {
    assert jobs[..i + 1][..i] == jobs[..i];
  }

  /** Once a job has thrown, the later ones are not handled. */
  lemma {:induction false} HandleJobsThrown(env: NotifyEnv, lastUpdatedInDb: Option<int>, s: Session,
                                            jobs: seq<NotificationJob>, i: nat)
    requires CoursesScanEnds(env)
    requires i <= |jobs| && HandleJobs(env, lastUpdatedInDb, s, jobs[..i]).thrown
    ensures HandleJobs(env, lastUpdatedInDb, s, jobs) == HandleJobs(env, lastUpdatedInDb, s, jobs[..i])
    decreases |jobs|
  {
    if i < |jobs| {
      var prefix := jobs[..|jobs| - 1];
      assert prefix[..i] == jobs[..i];
      HandleJobsThrown(env, lastUpdatedInDb, s, prefix, i);
    } else {
      assert jobs[..i] == jobs;
    }
  }

  /** One turn of the loop of `runNotifications`: handle the next job and advance the fold by one. */
  method HandleNextJob(cache: CourseIndexCache, db: Store, env: NotifyEnv, ghost marker: Option<int>, ghost s0: Session,
                       ghost jobs: seq<NotificationJob>, i: nat, job: NotificationJob)
    returns (thrown: bool)
    requires CoursesScanEnds(env) && i < |jobs| && jobs[i] == job && db.courseIndexUpdatedAt == marker
    requires HandleJobs(env, marker, s0, jobs[..i]) == JobsRun(Session(cache.State(), MailOf(db)), i, false)
    modifies cache, db`identityLookups, db`emailsSent, db`notifications
    ensures HandleJobs(env, marker, s0, jobs[..i + 1])
            == JobsRun(Session(cache.State(), MailOf(db)), if thrown then i else i + 1, thrown)
  {
    HandleJobsNext(env, marker, s0, jobs, i);
    thrown := DoHandleSubscriptionNotification(cache, db, env, job);
  }

  /**
   * `runNotifications`: refresh the index (a throwing scan propagates),
   * scan every subscription, and handle each in scan order until one
   * throws. `allRequests` is what the Subscriptions scan returns.
   */
  method RunNotifications(cache: CourseIndexCache, db: Store, env: NotifyEnv)
    returns (thrown: bool, ghost allRequests: seq<SubscriptionRow>)
    requires CoursesScanEnds(env) && SubscriptionsScanEnds(env)
    modifies cache, db`identityLookups, db`emailsSent, db`notifications
    ensures allRequests == AllItems(env.scanSubscriptions, ScanRequest(env.subscriptionsTable))
    ensures var marker := db.courseIndexUpdatedAt;
            var first := Populated(old(cache.State()), false, marker, CoursesScan(env));
            if RefreshThrows(env, marker, old(cache.currentIndexVersion)) then
              thrown && cache.State() == first && MailOf(db) == old(MailOf(db))
            else
              var r := HandleJobs(env, marker, Session(first, old(MailOf(db))), Jobs(allRequests));
              cache.State() == r.session.index && MailOf(db) == r.session.mail && thrown == r.thrown
  {
    allRequests := AllItems(env.scanSubscriptions, ScanRequest(env.subscriptionsTable));
    ghost var n: nat :| ChainEnds(env.scanCourses, ScanRequest(env.coursesTable), n);
    thrown := cache.PopulateCourseIndex(db, false, env.scanCourses, env.coursesTable, env.coursesScanOk, n);
    if thrown {
      return;
    }
    ghost var m: nat :| ChainEnds(env.scanSubscriptions, ScanRequest(env.subscriptionsTable), m);
    var rows, _ := ScanTable(env.scanSubscriptions, env.subscriptionsTable, m);
    ghost var s0, marker := Session(cache.State(), MailOf(db)), db.courseIndexUpdatedAt;
    ghost var jobs := Jobs(rows);
    var i := 0;
    while i < |rows|
      invariant i <= |rows| && !thrown && db.courseIndexUpdatedAt == marker
      invariant HandleJobs(env, marker, s0, jobs[..i]) == JobsRun(Session(cache.State(), MailOf(db)), i, false)
    {
      thrown := HandleNextJob(cache, db, env, marker, s0, jobs, i, JobOf(rows[i]));
      if thrown {
        HandleJobsThrown(env, marker, s0, jobs, i + 1);
        return;
      }
      i := i + 1;
    }
    assert jobs[..i] == jobs;
  }

  /** The receipt handles of the records, in order. */
  function Handles<T>(records: seq<SqsRecord<T>>): (r: seq<string>)
    ensures |r| == |records|
    ensures forall i :: 0 <= i < |records| ==> r[i] == records[i].receiptHandle
  {
    seq(|records|, i requires 0 <= i < |records| => records[i].receiptHandle)
  }

  /** One more record adds its handle. */
  lemma HandlesSnoc<T>(records: seq<SqsRecord<T>>, k: nat)
    requires k < |records|
    ensures Handles(records[..k + 1]) == Handles(records[..k]) + [records[k].receiptHandle]
  {
  }

  /** Where a run of queue messages stands: the session, the deleted handles, and whether one threw. */
  datatype MessagesRun = MessagesRun(session: Session, deleted: seq<string>, thrown: bool)

  /**
   * The loop of `handleSqsHandleNotificationEvent` over `records`: handle
   * the message, then delete it; the first exception, of the handling or
   * of the delete, ends it.
   */
  ghost function HandleMessages(env: NotifyEnv, lastUpdatedInDb: Option<int>, s: Session,
                                records: seq<SqsRecord<NotificationJob>>): MessagesRun
    requires CoursesScanEnds(env)
    decreases |records|
  {
    if records == [] then MessagesRun(s, [], false)
    else
      var q := HandleMessages(env, lastUpdatedInDb, s, records[..|records| - 1]);
      var last := records[|records| - 1];
      if q.thrown then q
      else
        var h := HandleOne(env, lastUpdatedInDb, q.session, last.body);
        if h.thrown || !env.deleteOk(last.receiptHandle) then MessagesRun(h.session, q.deleted, true)
        else MessagesRun(h.session, q.deleted + [last.receiptHandle], false)
  }

  /**
   * A message is deleted only after it was handled: the deleted handles
   * are those of a prefix of the records, all of them when nothing threw.
   */
  lemma {:induction false} HandleMessagesAcks(env: NotifyEnv, lastUpdatedInDb: Option<int>, s: Session,
                                              records: seq<SqsRecord<NotificationJob>>)
    requires CoursesScanEnds(env)
    ensures var r := HandleMessages(env, lastUpdatedInDb, s, records);
            |r.deleted| <= |records| && r.deleted == Handles(records[..|r.deleted|])
            && (!r.thrown ==> |r.deleted| == |records|)
    decreases |records|
  {
    if records != [] {
      var prefix := records[..|records| - 1];
      HandleMessagesAcks(env, lastUpdatedInDb, s, prefix);
      var q := HandleMessages(env, lastUpdatedInDb, s, prefix);
      if q.thrown {
        assert prefix[..|q.deleted|] == records[..|q.deleted|];
      } else {
        assert records[..|q.deleted|] == prefix;
        HandlesSnoc(records, |prefix|);
        assert records[..|prefix| + 1] == records;
      }
    }
  }

  /**
   * When the handler threw, the message right after the deleted prefix is
   * the one whose handling threw or whose delete failed.
   */
  lemma {:induction false} HandleMessagesBlame(env: NotifyEnv, lastUpdatedInDb: Option<int>, s: Session,
                                               records: seq<SqsRecord<NotificationJob>>)
    requires CoursesScanEnds(env)
    requires HandleMessages(env, lastUpdatedInDb, s, records).thrown
    ensures var k := |HandleMessages(env, lastUpdatedInDb, s, records).deleted|;
            k < |records|
            && (HandleOne(env, lastUpdatedInDb, HandleMessages(env, lastUpdatedInDb, s, records[..k]).session,
                          records[k].body).thrown
                || !env.deleteOk(records[k].receiptHandle))
    decreases |records|
  {
    var prefix := records[..|records| - 1];
    var q := HandleMessages(env, lastUpdatedInDb, s, prefix);
    if q.thrown {
      HandleMessagesBlame(env, lastUpdatedInDb, s, prefix);
      var k := |q.deleted|;
      assert prefix[..k] == records[..k];
      assert prefix[k] == records[k];
    } else {
      HandleMessagesAcks(env, lastUpdatedInDb, s, prefix);
      assert records[..|q.deleted|] == prefix;
    }
  }

  /** The queue handler suppresses repeats too. */
  lemma {:induction false} HandleMessagesSuppressed(env: NotifyEnv, lastUpdatedInDb: Option<int>, s: Session,
                                                    records: seq<SqsRecord<NotificationJob>>)
    requires CoursesScanEnds(env)
    ensures var r := HandleMessages(env, lastUpdatedInDb, s, records).session.mail;
            Suppressed(s.mail.notifications, s.mail.emails, r.notifications, r.emails)
    decreases |records|
  {
    if records == [] {
      SuppressedRefl(s.mail.notifications, s.mail.emails);
    } else {
      var q := HandleMessages(env, lastUpdatedInDb, s, records[..|records| - 1]);
      HandleMessagesSuppressed(env, lastUpdatedInDb, s, records[..|records| - 1]);
      if !q.thrown {
        var h := HandleOne(env, lastUpdatedInDb, q.session, records[|records| - 1].body);
        HandleOneSuppressed(env, lastUpdatedInDb, q.session, records[|records| - 1].body);
        SuppressedTrans(s.mail.notifications, s.mail.emails, q.session.mail.notifications, q.session.mail.emails,
                        h.session.mail.notifications, h.session.mail.emails);
      }
    }
  }

  /** One more message, when the earlier ones all went through. */
  lemma HandleMessagesNext(env: NotifyEnv, lastUpdatedInDb: Option<int>, s: Session,
                           records: seq<SqsRecord<NotificationJob>>, i: nat)
    requires CoursesScanEnds(env)
    requires i < |records| && !HandleMessages(env, lastUpdatedInDb, s, records[..i]).thrown
    ensures var q := HandleMessages(env, lastUpdatedInDb, s, records[..i]);
            var h := HandleOne(env, lastUpdatedInDb, q.session, records[i].body);
            HandleMessages(env, lastUpdatedInDb, s, records[..i + 1])
            == if h.thrown || !env.deleteOk(records[i].receiptHandle) then MessagesRun(h.session, q.deleted, true)
               else MessagesRun(h.session, q.deleted + [records[i].receiptHandle], false)
  {
    assert records[..i + 1][..i] == records[..i];
  }

  /** Once a message has thrown, the later ones are not handled. */
  lemma {:induction false} HandleMessagesThrown(env: NotifyEnv, lastUpdatedInDb: Option<int>, s: Session,
                                                records: seq<SqsRecord<NotificationJob>>, i: nat)
    requires CoursesScanEnds(env)
    requires i <= |records| && HandleMessages(env, lastUpdatedInDb, s, records[..i]).thrown
    ensures HandleMessages(env, lastUpdatedInDb, s, records) == HandleMessages(env, lastUpdatedInDb, s, records[..i])
    decreases |records|
  {
    if i < |records| {
      var prefix := records[..|records| - 1];
      assert prefix[..i] == records[..i];
      HandleMessagesThrown(env, lastUpdatedInDb, s, prefix, i);
    } else {
      assert records[..i] == records;
    }
  }

  /**
   * `handleSqsHandleNotificationEvent`: handle each message in turn and
   * delete it from the queue once its handling has finished; an exception
   * leaves that message and the later ones in the queue.
   */
  method HandleSqsHandleNotificationEvent(cache: CourseIndexCache, db: Store, env: NotifyEnv,
                                          records: seq<SqsRecord<NotificationJob>>)
    returns (thrown: bool)
    requires CoursesScanEnds(env)
    modifies cache, db`identityLookups, db`emailsSent, db`notifications, db`notificationDeleted
    ensures var r := HandleMessages(env, db.courseIndexUpdatedAt, Session(old(cache.State()), old(MailOf(db))), records);
            cache.State() == r.session.index && MailOf(db) == r.session.mail && thrown == r.thrown
            && db.notificationDeleted == old(db.notificationDeleted) + r.deleted
  {
    ghost var s0, deleted0, marker := Session(cache.State(), MailOf(db)), db.notificationDeleted, db.courseIndexUpdatedAt;
    thrown := false;
    var i := 0;
    while i < |records|
      invariant i <= |records| && !thrown && db.courseIndexUpdatedAt == marker
      invariant |deleted0| <= |db.notificationDeleted| && db.notificationDeleted[..|deleted0|] == deleted0
      invariant HandleMessages(env, marker, s0, records[..i])
                == MessagesRun(Session(cache.State(), MailOf(db)), db.notificationDeleted[|deleted0|..], false)
    {
      thrown := HandleNextMessage(cache, db, env, marker, s0, deleted0, records, i);
      if thrown {
        HandleMessagesThrown(env, marker, s0, records, i + 1);
        SplitAt(db.notificationDeleted, |deleted0|);
        return;
      }
      i := i + 1;
    }
    assert records[..i] == records;
    SplitAt(db.notificationDeleted, |deleted0|);
  }

  /** One turn of the loop of `handleSqsHandleNotificationEvent`: handle and delete the next message. */
  method HandleNextMessage(cache: CourseIndexCache, db: Store, env: NotifyEnv, ghost marker: Option<int>, ghost s0: Session,
                           ghost deleted0: seq<string>, records: seq<SqsRecord<NotificationJob>>, i: nat)
    returns (thrown: bool)
    requires CoursesScanEnds(env) && i < |records| && db.courseIndexUpdatedAt == marker
    requires |deleted0| <= |db.notificationDeleted| && db.notificationDeleted[..|deleted0|] == deleted0
    requires HandleMessages(env, marker, s0, records[..i])
             == MessagesRun(Session(cache.State(), MailOf(db)), db.notificationDeleted[|deleted0|..], false)
    modifies cache, db`identityLookups, db`emailsSent, db`notifications, db`notificationDeleted
    ensures |deleted0| <= |db.notificationDeleted| && db.notificationDeleted[..|deleted0|] == deleted0
    ensures HandleMessages(env, marker, s0, records[..i + 1])
            == MessagesRun(Session(cache.State(), MailOf(db)), db.notificationDeleted[|deleted0|..], thrown)
  {
    HandleMessagesNext(env, marker, s0, records, i);
    thrown := DoHandleSubscriptionNotification(cache, db, env, records[i].body);
    if thrown || !env.deleteOk(records[i].receiptHandle) {
      return true;
    }
    ghost var before := db.notificationDeleted;
    db.notificationDeleted := db.notificationDeleted + [records[i].receiptHandle];
    assert db.notificationDeleted[|deleted0|..] == before[|deleted0|..] + [records[i].receiptHandle];
    assert db.notificationDeleted[..|deleted0|] == before[..|deleted0|];
  }

  // ---------------------------------------------------------------------
  // getMyNotifiedCourses: the course lookup
  // ---------------------------------------------------------------------

  /**
   * The course `getMyNotifiedCourses` reports for a record, as written: the
   * key text is read with `parseInt(text || "0", 10)` and looked up as a
   * number; a NaN finds nothing.
   */
  function NotifiedCourseAsWritten(courseMap: map<MapKey, CourseItem>, courseIdN: CourseKey): Option<CourseView> {
    match ParseInt(if courseIdN == "" then "0" else courseIdN)
    case None => None
    case Some(v) => GetCourseJsonById(courseMap, NumKey(v))
  }

  /** The lookup as intended: under the key text itself, as `courseMap` is filled. */
  function NotifiedCourse(courseMap: map<MapKey, CourseItem>, courseIdN: CourseKey): Option<CourseView> {
    GetCourseJsonById(courseMap, StrKey(courseIdN))
  }

  /** Against a map the index rebuild filled, the lookup as written never finds a course. */
  lemma NotifiedCourseAsWrittenNeverFinds(docs: seq<CourseItem>, courseIdN: CourseKey)
    ensures NotifiedCourseAsWritten(DocMap(docs), courseIdN) == None
  {
    DocMapExactly(docs);
  }

  /** The intended lookup finds every scanned course, with its stored attributes. */
  lemma NotifiedCourseFinds(docs: seq<CourseItem>, i: nat)
    requires i < |docs|
    ensures NotifiedCourse(DocMap(docs), docs[i].courseIdN).Some?
    ensures var v := NotifiedCourse(DocMap(docs), docs[i].courseIdN).value;
            v.id == StrKey(docs[i].courseIdN) && DocMap(docs)[v.id].courseIdN == docs[i].courseIdN
  {
    DocMapExactly(docs);
  }

  /** A concrete stored course that the record lookup misses as written and finds as intended. */
  lemma NotifiedCourseDiscrepancy()
    ensures var doc := CourseItem("42", None, Some("Ensiapu 1"), None, None, None, None, None, None, None);
            NotifiedCourseAsWritten(DocMap([doc]), "42") == None
            && NotifiedCourse(DocMap([doc]), "42").Some?
  {
    var doc := CourseItem("42", None, Some("Ensiapu 1"), None, None, None, None, None, None, None);
    NotifiedCourseAsWrittenNeverFinds([doc], "42");
    NotifiedCourseFinds([doc], 0);
  }
}
