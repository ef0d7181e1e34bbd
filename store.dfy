/**
 * The persistent state the functions share: the DynamoDB tables, as maps
 * from their keys to their items; the two SQS queues, as the messages sent
 * to them and the receipt handles deleted from them; and what the user pool
 * and the mail service were asked to do.
 */
module Store {
  import opened Wrappers
  import opened Text
  import opened CourseJson

  type UserId = string

  /** A course id as DynamoDB stores it: the text of the number (`CourseId.N`). */
  type CourseKey = string

  /** `courseId.toString()`: the key under which a numeric course id is stored. */
  function CourseKeyOf(courseId: int): CourseKey {
    IntText(courseId)
  }

  /** An item of the Courses table. Every attribute but the key may be absent. */
  datatype CourseItem = CourseItem(
    courseIdN: CourseKey,
    lastCrawledAt: Option<int>,   // LastCrawledAt.N, epoch milliseconds
    name: Option<string>,
    location: Option<string>,
    startTime: Option<int>,       // StartTime.N, epoch seconds
    endTime: Option<int>,         // EndTime.N; None also for the stored {NULL: true}
    timeInfo: Option<string>,
    introText: Option<string>,
    jsonHash: Option<string>,
    crawlPending: Option<bool>)

  /** `CrawlPending?.BOOL` is true. */
  predicate IsPending(c: CourseItem) {
    c.crawlPending == Some(true)
  }

  /** The item `set CrawlPending = true` creates when the key is absent. */
  function PendingStub(key: CourseKey): CourseItem {
    CourseItem(key, None, None, None, None, None, None, None, None, Some(true))
  }

  /** An item of the Notifications table, keyed by (UserId, CourseId). */
  datatype NotificationRecord = NotificationRecord(
    triggeredSubscription: string,
    notifiedAt: int,              // epoch seconds
    notifiedBy: string)

  /** The Notifications table. */
  type Notifications = map<(UserId, CourseKey), NotificationRecord>

  /** `JSON.stringify({method: 'EMAIL'})`. */
  const NotifiedByEmail: string := "{\"method\":\"EMAIL\"}"

  /** An item of the Subscriptions table, keyed by (UserId, SubscriptionId). */
  datatype SubscriptionRow = SubscriptionRow(userId: UserId, subscriptionId: string, tokens: seq<string>)

  /** An item of the Notifications table as a query returns it. */
  datatype NotificationRow = NotificationRow(userId: UserId, courseIdN: CourseKey, record: NotificationRecord)

  /** The body of a crawl-queue message. */
  datatype CrawlJob = CrawlJob(courseId: int, courseJsonItem: Item)

  /** The body of a notification-queue message. */
  datatype NotificationJob = NotificationJob(userId: UserId, subscriptionId: string, tokens: seq<string>)

  /** A templated notification email as handed to SES. */
  datatype EmailMessage = EmailMessage(
    userId: UserId,
    to: Option<string>,         // the user's `email` attribute; null when the user has none
    keyword: string,            // the subscription's tokens joined by spaces
    courseIds: seq<string>)     // the ids of the courses listed, in order

  /** One record of an SQS event, its body already parsed. */
  datatype SqsRecord<T> = SqsRecord(receiptHandle: string, body: T)

  class Store {
    /** Courses: CourseId -> item. */
    var courses: map<CourseKey, CourseItem>
    /** Notifications: (UserId, CourseId) -> record. */
    var notifications: Notifications
    /** Subscriptions: (UserId, SubscriptionId) -> Tokens. */
    var subscriptions: map<(UserId, string), seq<string>>
    /** Status["CourseIndexUpdated"].UpdatedAt, when the item and its attribute exist. */
    var courseIndexUpdatedAt: Option<int>
    /** Messages sent to the crawl queue, oldest first. */
    var crawlQueue: seq<CrawlJob>
    /** Receipt handles deleted from the crawl queue, oldest first. */
    var crawlDeleted: seq<string>
    /** Messages sent to the notification queue, oldest first. */
    var notificationQueue: seq<NotificationJob>
    /** Receipt handles deleted from the notification queue, oldest first. */
    var notificationDeleted: seq<string>
    /** Users looked up in the Cognito user pool, oldest first. */
    var identityLookups: seq<UserId>
    /** Users deleted from the Cognito user pool, oldest first. */
    var deletedIdentities: seq<UserId>
    /** Emails SES accepted, oldest first. */
    var emailsSent: seq<EmailMessage>

    constructor ()
      ensures courses == map[] && notifications == map[] && subscriptions == map[]
      ensures courseIndexUpdatedAt == None
      ensures crawlQueue == [] && crawlDeleted == []
      ensures notificationQueue == [] && notificationDeleted == []
      ensures identityLookups == [] && deletedIdentities == [] && emailsSent == []
    {
      courses, notifications, subscriptions := map[], map[], map[];
      courseIndexUpdatedAt := None;
      crawlQueue, crawlDeleted := [], [];
      notificationQueue, notificationDeleted := [], [];
      identityLookups, deletedIdentities, emailsSent := [], [], [];
    }
  }
}
