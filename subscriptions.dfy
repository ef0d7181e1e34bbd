/**
 * Subscriptions: adding one normalises the requested tokens (trimmed,
 * longer than one character, first occurrence of each), stores them and
 * queues the subscription for a first notification run; deleting one also
 * deletes the notification records it triggered; deleting oneself does so
 * for every subscription and then removes the user from the user pool.
 *
 * The two table queries are parameters (`SubscriptionsEnv`); the
 * subscription id `uuid.v4()` draws is an argument.
 */
module Subscriptions {
  import opened Wrappers
  import opened Text
  import opened Store
  import opened TableReaders
  import opened Seqs

  // ---------------------------------------------------------------------
  // Token normalisation
  // ---------------------------------------------------------------------

  /** The white space and line terminators `String.prototype.trim` removes. */
  predicate IsTrimmable(c: char) {
    c == '\t' || c == '\n' || c == '\U{000B}' || c == '\U{000C}' || c == '\r' || c == ' '
    || c == '\U{00A0}' || c == '\U{1680}' || ('\U{2000}' <= c <= '\U{200A}')
    || c == '\U{2028}' || c == '\U{2029}' || c == '\U{202F}' || c == '\U{205F}' || c == '\U{3000}'
    || c == '\U{FEFF}'
  }

  /** `s` without its leading white space. */
  function TrimStart(s: string): (t: string)
    ensures |t| <= |s|
  {
    if s != [] && IsTrimmable(s[0]) then TrimStart(s[1..]) else s
  }

  /** `s` without its trailing white space. */
  function TrimEnd(s: string): (t: string)
    ensures |t| <= |s|
  {
    if s != [] && IsTrimmable(s[|s| - 1]) then TrimEnd(s[..|s| - 1]) else s
  }

  /** `s.trim()`. */
  function Trim(s: string): string {
    TrimEnd(TrimStart(s))
  }

  /** TrimStart removes a run of white space from the front and stops at the first other character. */
  lemma {:induction false} TrimStartSpec(s: string)
    ensures var t := TrimStart(s);
            |t| <= |s| && t == s[|s| - |t|..]
            && (forall k :: 0 <= k < |s| - |t| ==> IsTrimmable(s[k]))
            && (t == [] || !IsTrimmable(t[0]))
  {
    if s != [] && IsTrimmable(s[0]) {
      TrimStartSpec(s[1..]);
    }
  }

  /** TrimEnd removes a run of white space from the back and stops at the last other character. */
  lemma {:induction false} TrimEndSpec(s: string)
    ensures var t := TrimEnd(s);
            |t| <= |s| && t == s[..|t|]
            && (forall k :: |t| <= k < |s| ==> IsTrimmable(s[k]))
            && (t == [] || !IsTrimmable(t[|t| - 1]))
  {
    if s != [] && IsTrimmable(s[|s| - 1]) {
      TrimEndSpec(s[..|s| - 1]);
    }
  }

  /**
   * `trim` keeps a stretch of the string, removes only white space around
   * it, and leaves no white space at either end.
   */
  lemma TrimSpec(s: string)
    ensures var t := Trim(s);
            var i := |s| - |TrimStart(s)|;
            i + |t| <= |s| && t == s[i..i + |t|]
            && (forall k :: 0 <= k < i ==> IsTrimmable(s[k]))
            && (forall k :: i + |t| <= k < |s| ==> IsTrimmable(s[k]))
            && (t == [] || (!IsTrimmable(t[0]) && !IsTrimmable(t[|t| - 1])))
  {
    var u := TrimStart(s);
    var t := TrimEnd(u);
    var i := |s| - |u|;
    assert i + |t| <= |s| && t == s[i..i + |t|] by {
      TrimStartSpec(s);
      TrimEndSpec(u);
      assert s[i..][..|t|] == s[i..i + |t|];
    }
    assert forall k :: 0 <= k < i ==> IsTrimmable(s[k]) by {
      TrimStartSpec(s);
    }
    assert forall k :: i + |t| <= k < |s| ==> IsTrimmable(s[k]) by {
      TrimStartSpec(s);
      TrimEndSpec(u);
      forall k | i + |t| <= k < |s|
        ensures IsTrimmable(s[k])
      {
        assert s[k] == u[k - i];
      }
    }
    assert t == [] || (!IsTrimmable(t[0]) && !IsTrimmable(t[|t| - 1])) by {
      TrimStartSpec(s);
      TrimEndSpec(u);
      if t != [] {
        assert t[0] == u[0];
      }
    }
  }

  /** A string without white space at either end is its own trim; so trimming twice is trimming once. */
  lemma TrimFixed(s: string)
    ensures Trim(Trim(s)) == Trim(s)
  {
    TrimSpec(s);
    var t := Trim(s);
    if t != [] {
      assert TrimStart(t) == t;
      assert TrimEnd(t) == t;
    }
  }

  /** `.filter(x => x.length > 1)`: the tokens longer than one UTF-16 unit. */
  function KeepLong(tokens: seq<string>): seq<string> {
    if tokens == [] then []
    else KeepLong(tokens[..|tokens| - 1]) + (if Utf16Length(tokens[|tokens| - 1]) > 1 then [tokens[|tokens| - 1]] else [])
  }

  /** The long tokens are kept, in order, and a list of long tokens is kept whole. */
  lemma KeepLongSpec(tokens: seq<string>)
    ensures forall x :: x in KeepLong(tokens) <==> x in tokens && Utf16Length(x) > 1
    ensures (forall i :: 0 <= i < |tokens| ==> Utf16Length(tokens[i]) > 1) ==> KeepLong(tokens) == tokens
  {
    KeepLongMembers(tokens);
    if forall i :: 0 <= i < |tokens| ==> Utf16Length(tokens[i]) > 1 {
      KeepLongAllLong(tokens);
    }
  }

  lemma {:induction false} KeepLongMembers(tokens: seq<string>)
    ensures forall x :: x in KeepLong(tokens) <==> x in tokens && Utf16Length(x) > 1
  {
    if tokens != [] {
      var prefix := tokens[..|tokens| - 1];
      var t := tokens[|tokens| - 1];
      KeepLongMembers(prefix);
      SplitLast(tokens);
      assert KeepLong(tokens) == KeepLong(prefix) + (if Utf16Length(t) > 1 then [t] else []);
    }
  }

  lemma {:induction false} KeepLongAllLong(tokens: seq<string>)
    requires forall i :: 0 <= i < |tokens| ==> Utf16Length(tokens[i]) > 1
    ensures KeepLong(tokens) == tokens
  {
    if tokens != [] {
      var prefix := tokens[..|tokens| - 1];
      var t := tokens[|tokens| - 1];
      assert forall i :: 0 <= i < |prefix| ==> prefix[i] == tokens[i];
      KeepLongAllLong(prefix);
      assert Utf16Length(t) > 1;
      assert KeepLong(tokens) == KeepLong(prefix) + [t];
      SplitLast(tokens);
    }
  }

  /** `array.indexOf(x)`: the first position holding `x`, or -1. */
  function IndexOf<T(==)>(arr: seq<T>, x: T): (i: int)
    ensures -1 <= i < |arr|
    ensures i == -1 <==> x !in arr
    ensures 0 <= i ==> arr[i] == x && forall j :: 0 <= j < i ==> arr[j] != x
  {
    if arr == [] then -1
    else if arr[0] == x then 0
    else
      var k := IndexOf(arr[1..], x);
      if k == -1 then -1 else k + 1
  }

  /** `.filter((v, i, a) => a.indexOf(v) === i)` over the first `n` elements. */
  function FirstOccurrences<T(==)>(arr: seq<T>, n: nat): seq<T>
    requires n <= |arr|
  {
    if n == 0 then []
    else FirstOccurrences(arr, n - 1) + (if IndexOf(arr, arr[n - 1]) == n - 1 then [arr[n - 1]] else [])
  }

  /** The filter by `indexOf` over the whole array. */
  function Distinct<T(==)>(arr: seq<T>): seq<T> {
    FirstOccurrences(arr, |arr|)
  }

  /**
   * Each value first found among the first `n` positions is kept once:
   * the kept values are exactly those, in the order of their first
   * positions.
   */
  lemma {:induction false} FirstOccurrencesSpec<T>(arr: seq<T>, n: nat)
    requires n <= |arr|
    ensures forall x :: x in FirstOccurrences(arr, n) <==> 0 <= IndexOf(arr, x) < n
    ensures forall i, j :: 0 <= i < j < |FirstOccurrences(arr, n)| ==>
                             IndexOf(arr, FirstOccurrences(arr, n)[i]) < IndexOf(arr, FirstOccurrences(arr, n)[j])
  {
    if n > 0 {
      FirstOccurrencesSpec(arr, n - 1);
    }
  }

  /** The array has no value twice. */
  predicate NoDuplicates<T(==)>(arr: seq<T>) {
    forall i, j :: 0 <= i < j < |arr| ==> arr[i] != arr[j]
  }

  /** On an array without duplicates the filter keeps everything. */
  lemma {:induction false} FirstOccurrencesOfDistinct<T>(arr: seq<T>, n: nat)
    requires n <= |arr| && NoDuplicates(arr)
    ensures FirstOccurrences(arr, n) == arr[..n]
  {
    if n > 0 {
      FirstOccurrencesOfDistinct(arr, n - 1);
      PrefixSnoc(arr, n - 1);
    }
  }

  /**
   * The filter keeps every value of the array exactly once, in the order
   * of first occurrence, and keeps an array without duplicates whole.
   */
  lemma DistinctSpec<T>(arr: seq<T>)
    ensures forall x :: x in Distinct(arr) <==> x in arr
    ensures NoDuplicates(Distinct(arr))
    ensures forall i, j :: 0 <= i < j < |Distinct(arr)| ==> IndexOf(arr, Distinct(arr)[i]) < IndexOf(arr, Distinct(arr)[j])
    ensures NoDuplicates(arr) ==> Distinct(arr) == arr
  {
    FirstOccurrencesSpec(arr, |arr|);
    assert arr[..|arr|] == arr;
    if NoDuplicates(arr) {
      FirstOccurrencesOfDistinct(arr, |arr|);
    }
  }

  /** `tokens.map(e => e.trim())`. */
  function TrimAll(tokens: seq<string>): (r: seq<string>)
    ensures |r| == |tokens|
    ensures forall i :: 0 <= i < |tokens| ==> r[i] == Trim(tokens[i])
  {
    seq(|tokens|, i requires 0 <= i < |tokens| => Trim(tokens[i]))
  }

  /** The token list `addSubscription` keeps. */
  function FilterTokens(tokens: seq<string>): seq<string> {
    Distinct(KeepLong(TrimAll(tokens)))
  }

  /**
   * Every kept token is trimmed and longer than one UTF-16 unit; exactly
   * the trimmed tokens that long are kept, each once, in the order of
   * their first occurrence.
   */
  lemma FilterTokensSpec(tokens: seq<string>)
    ensures var r := FilterTokens(tokens);
            (forall x :: x in r ==> Trim(x) == x && Utf16Length(x) > 1)
            && (forall x :: x in r <==> x in TrimAll(tokens) && Utf16Length(x) > 1)
            && NoDuplicates(r)
            && (forall i, j :: 0 <= i < j < |r| ==>
                  IndexOf(KeepLong(TrimAll(tokens)), r[i]) < IndexOf(KeepLong(TrimAll(tokens)), r[j]))
  {
    var trimmed := TrimAll(tokens);
    KeepLongSpec(trimmed);
    DistinctSpec(KeepLong(trimmed));
    forall x | x in trimmed ensures Trim(x) == x {
      var i :| 0 <= i < |trimmed| && trimmed[i] == x;
      TrimFixed(tokens[i]);
    }
  }

  /** Filtering a filtered list changes nothing. */
  lemma FilterTokensIdempotent(tokens: seq<string>)
    ensures FilterTokens(FilterTokens(tokens)) == FilterTokens(tokens)
  {
    var r := FilterTokens(tokens);
    FilterTokensSpec(tokens);
    assert TrimAll(r) == r;
    KeepLongSpec(r);
    assert KeepLong(r) == r;
    DistinctSpec(r);
  }

  // ---------------------------------------------------------------------
  // addSubscription
  // ---------------------------------------------------------------------

  /**
   * The request body as `JSON.parse` returns it. Only truthiness matters
   * for a number, so numbers are kept as reals; an object keeps its
   * members in text order, duplicates included.
   */
  datatype BodyValue =
    | BNull
    | BBool(b: bool)
    | BNum(n: real)
    | BStr(s: string)
    | BArr(elems: seq<BodyValue>)
    | BObj(members: seq<(string, BodyValue)>)

  /** A JavaScript value is falsy when it is null, false, 0 or the empty string. */
  predicate BodyTruthy(v: BodyValue) {
    match v
    case BNull => false
    case BBool(b) => b
    case BNum(n) => n != 0.0
    case BStr(s) => s != ""
    case _ => true
  }

  /** `obj[key]` of a parsed object: the last member with that name, or undefined. */
  function Member(members: seq<(string, BodyValue)>, key: string): Option<BodyValue>
    decreases |members|
  {
    if members == [] then None
    else if members[|members| - 1].0 == key then Some(members[|members| - 1].1)
    else Member(members[..|members| - 1], key)
  }

  /** `body.tokens`: undefined for anything that is not an object. */
  function TokensValue(body: BodyValue): Option<BodyValue> {
    if body.BObj? then Member(body.members, "tokens") else None
  }

  /** The strings of an array, or None when an element is not a string. */
  function Strings(elems: seq<BodyValue>): Option<seq<string>>
    decreases |elems|
  {
    if elems == [] then Some([])
    else
      match Strings(elems[..|elems| - 1])
      case None => None
      case Some(prefix) =>
        if elems[|elems| - 1].BStr? then Some(prefix + [elems[|elems| - 1].s]) else None
  }

  /**
   * `body.tokens || []` and the `e.trim` of `tokens.map`, or None where
   * they throw: a body that is no JSON (None), a `null` body, a truthy
   * `tokens` that is not an array, or an element that is not a string.
   */
  function RequestTokens(body: Option<BodyValue>): Option<seq<string>> {
    if body.None? || body.value.BNull? then None
    else
      var t := TokensValue(body.value);
      if t.None? || !BodyTruthy(t.value) then Some([])
      else if t.value.BArr? then Strings(t.value.elems)
      else None
  }

  /** An array yields its strings exactly when every element is a string. */
  lemma {:induction false} StringsSpec(elems: seq<BodyValue>)
    ensures Strings(elems).Some? <==> forall i :: 0 <= i < |elems| ==> elems[i].BStr?
    ensures Strings(elems).Some? ==>
              |Strings(elems).value| == |elems| && forall i :: 0 <= i < |elems| ==> Strings(elems).value[i] == elems[i].s
    decreases |elems|
  {
    if elems != [] {
      var prefix := elems[..|elems| - 1];
      StringsSpec(prefix);
      assert forall i :: 0 <= i < |prefix| ==> prefix[i] == elems[i];
    }
  }

  /**
   * The request's tokens: the handler throws exactly on a malformed or
   * `null` body, a truthy `tokens` that is no array, or an array with an
   * element that is no string; an absent or falsy `tokens` gives no
   * token, and an array of strings gives those strings in order.
   */
  lemma RequestTokensCases(body: Option<BodyValue>)
    ensures RequestTokens(body).None? <==>
              body.None? || body == Some(BNull)
              || (TokensValue(body.value).Some? && BodyTruthy(TokensValue(body.value).value)
                  && (!TokensValue(body.value).value.BArr?
                      || exists i :: 0 <= i < |TokensValue(body.value).value.elems|
                                     && !TokensValue(body.value).value.elems[i].BStr?))
    ensures (body.Some? && body != Some(BNull)
             && (TokensValue(body.value).None? || !BodyTruthy(TokensValue(body.value).value)))
            ==> RequestTokens(body) == Some([])
    ensures RequestTokens(body).Some? && TokensValue(body.value).Some? && TokensValue(body.value).value.BArr? ==>
              var elems := TokensValue(body.value).value.elems;
              |RequestTokens(body).value| == |elems|
              && forall i :: 0 <= i < |elems| ==> RequestTokens(body).value[i] == elems[i].s
  {
    if body.Some? && body != Some(BNull) {
      var t := TokensValue(body.value);
      if t.Some? && t.value.BArr? {
        StringsSpec(t.value.elems);
      }
    }
  }

  /** The JSON bodies `addSubscription` answers with. */
  datatype AddBody = TokenError | Created(subscriptionId: string)

  /** The handler's answer, or an exception that left it. */
  datatype AddResponse = Response(statusCode: int, body: AddBody) | Threw

  /**
   * `addSubscription`: a body the handler cannot read throws before any
   * write; with no token left after normalisation answer 400
   * `{error: 'token'}` and write nothing; otherwise store the subscription
   * with the normalised tokens, queue it for notification, and answer 200
   * with its id. `putOk` and `sendOk` say whether the put and the send
   * resolve; a failure propagates, and a failed send leaves the
   * subscription stored but never queued.
   */
  method AddSubscription(db: Store, userId: UserId, body: Option<BodyValue>, subscriptionId: string,
                         putOk: bool, sendOk: bool)
    returns (response: AddResponse)
    modifies db`subscriptions, db`notificationQueue
    ensures RequestTokens(body).None? ==>
              response == Threw
              && db.subscriptions == old(db.subscriptions) && db.notificationQueue == old(db.notificationQueue)
    ensures RequestTokens(body).Some? ==>
            var filtered := FilterTokens(RequestTokens(body).value);
            if filtered == [] then
              response == Response(400, TokenError)
              && db.subscriptions == old(db.subscriptions) && db.notificationQueue == old(db.notificationQueue)
            else if !putOk then
              response == Threw
              && db.subscriptions == old(db.subscriptions) && db.notificationQueue == old(db.notificationQueue)
            else
              db.subscriptions == old(db.subscriptions)[(userId, subscriptionId) := filtered]
              && (sendOk ==>
                    response == Response(200, Created(subscriptionId))
                    && db.notificationQueue == old(db.notificationQueue) + [NotificationJob(userId, subscriptionId, filtered)])
              && (!sendOk ==> response == Threw && db.notificationQueue == old(db.notificationQueue))
  {
    var tokens := RequestTokens(body);
    if tokens.None? {
      return Threw;
    }
    var filteredTokens := FilterTokens(tokens.value);
    if |filteredTokens| < 1 {
      return Response(400, TokenError);
    }
    if !putOk {
      return Threw;
    }
    db.subscriptions := db.subscriptions[(userId, subscriptionId) := filteredTokens];
    if !sendOk {
      return Threw;
    }
    db.notificationQueue := db.notificationQueue + [NotificationJob(userId, subscriptionId, filteredTokens)];
    return Response(200, Created(subscriptionId));
  }

  // ---------------------------------------------------------------------
  // Deleting
  // ---------------------------------------------------------------------

  datatype SubscriptionsEnv = SubscriptionsEnv(
    queryNotifications: Request<(UserId, CourseKey)> -> Page<(UserId, CourseKey), NotificationRow>,
    notificationsTable: string,
    querySubscriptions: Request<(UserId, string)> -> Page<(UserId, string), SubscriptionRow>,
    subscriptionsTable: string)

  /**
   * The query on `TriggeredSubscriptionIndex` for the user's records the
   * subscription triggered; the attribute names and values are flattened
   * into the parameters.
   */
  function TriggeredQuery(userId: UserId, subscriptionId: string): Request<(UserId, CourseKey)> {
    map["IndexName" := PText("TriggeredSubscriptionIndex"),
        "KeyConditionExpression" := PText("#UserId = :userId and #TriggeredSubscription = :subscriptionId"),
        "#TriggeredSubscription" := PText("TriggeredSubscription"),
        "#UserId" := PText("UserId"),
        ":subscriptionId" := PText(subscriptionId),
        ":userId" := PText(userId)]
  }

  /** The query for all of the user's subscriptions. */
  function UserQuery(userId: UserId): Request<(UserId, string)> {
    map["KeyConditionExpression" := PText("UserId = :userId"), ":userId" := PText(userId)]
  }

  /** `notification.CourseId` of each row, in order. */
  function RowCourses(rows: seq<NotificationRow>): (r: seq<CourseKey>)
    ensures |r| == |rows|
    ensures forall i :: 0 <= i < |rows| ==> r[i] == rows[i].courseIdN
  {
    seq(|rows|, i requires 0 <= i < |rows| => rows[i].courseIdN)
  }

  /** The table after (userId, c) is deleted for each c in turn. */
  function DeleteRecords(notifications: Notifications, userId: UserId, courses: seq<CourseKey>): Notifications {
    if courses == [] then notifications
    else DeleteRecords(notifications, userId, courses[..|courses| - 1]) - {(userId, courses[|courses| - 1])}
  }

  /** The deletes remove exactly the user's records for the courses and change no other record. */
  lemma {:induction false} DeleteRecordsSpec(notifications: Notifications, userId: UserId, courses: seq<CourseKey>)
    ensures var r := DeleteRecords(notifications, userId, courses);
            (forall k :: k in r <==> k in notifications && !(k.0 == userId && k.1 in courses))
            && (forall k :: k in r ==> r[k] == notifications[k])
  {
    if courses != [] {
      var prefix := courses[..|courses| - 1];
      DeleteRecordsSpec(notifications, userId, prefix);
      assert courses == prefix + [courses[|courses| - 1]];
    }
  }

  /** The table without the user's records that one of `sids` triggered. */
  function WithoutTriggered(notifications: Notifications, userId: UserId, sids: set<string>): Notifications {
    map k | k in notifications && !(k.0 == userId && notifications[k].triggeredSubscription in sids) :: notifications[k]
  }

  /**
   * The index answered with every record of the user that the
   * subscription triggered, and names no record of the user that it did
   * not trigger; rows for records already gone are allowed.
   */
  ghost predicate AnswersIndexQuery(notifications: Notifications, userId: UserId, subscriptionId: string,
                                    rows: seq<NotificationRow>) {
    (forall k :: k in notifications && k.0 == userId && notifications[k].triggeredSubscription == subscriptionId ==>
                   k.1 in RowCourses(rows))
    && (forall c :: c in RowCourses(rows) && (userId, c) in notifications ==>
                      notifications[(userId, c)].triggeredSubscription == subscriptionId)
  }

  /** Deleting the records an answer names removes exactly the subscription's records. */
  lemma DeleteAnsweredRecords(notifications: Notifications, userId: UserId, subscriptionId: string,
                              rows: seq<NotificationRow>)
    requires AnswersIndexQuery(notifications, userId, subscriptionId, rows)
    ensures DeleteRecords(notifications, userId, RowCourses(rows)) == WithoutTriggered(notifications, userId, {subscriptionId})
  {
    DeleteRecordsSpec(notifications, userId, RowCourses(rows));
  }

  /** An answer stays valid when records are deleted. */
  lemma AnswersIndexQuerySubmap(notifications: Notifications, smaller: Notifications, userId: UserId,
                                subscriptionId: string, rows: seq<NotificationRow>)
    requires AnswersIndexQuery(notifications, userId, subscriptionId, rows)
    requires forall k :: k in smaller ==> k in notifications && smaller[k] == notifications[k]
    ensures AnswersIndexQuery(smaller, userId, subscriptionId, rows)
  {
  }

  /** The index query for the subscription ends and answers for the table. */
  ghost predicate IndexAnswers(env: SubscriptionsEnv, notifications: Notifications, userId: UserId, subscriptionId: string) {
    exists n: nat :: ChainEnds(env.queryNotifications, QueryRequest(env.notificationsTable, TriggeredQuery(userId, subscriptionId)), n)
                     && AnswersIndexQuery(notifications, userId, subscriptionId,
                                          ChainItems(env.queryNotifications,
                                                     QueryRequest(env.notificationsTable, TriggeredQuery(userId, subscriptionId)), n))
  }

  /**
   * `doDeleteSubscription`: delete the records the subscription triggered,
   * as the index lists them, then the subscription itself.
   */
  method DoDeleteSubscription(db: Store, env: SubscriptionsEnv, userId: UserId, subscriptionId: string)
    requires IndexAnswers(env, db.notifications, userId, subscriptionId)
    modifies db`notifications, db`subscriptions
    ensures db.notifications == WithoutTriggered(old(db.notifications), userId, {subscriptionId})
    ensures db.subscriptions == old(db.subscriptions) - {(userId, subscriptionId)}
  {
    var request := QueryRequest(env.notificationsTable, TriggeredQuery(userId, subscriptionId));
    ghost var n: nat :| ChainEnds(env.queryNotifications, request, n)
                        && AnswersIndexQuery(db.notifications, userId, subscriptionId, ChainItems(env.queryNotifications, request, n));
    var matchingNotifications, _ := QueryTable(env.queryNotifications, env.notificationsTable,
                                               TriggeredQuery(userId, subscriptionId), n);
    DeleteListedRecords(db, userId, matchingNotifications);
    DeleteAnsweredRecords(old(db.notifications), userId, subscriptionId, matchingNotifications);
    db.subscriptions := db.subscriptions - {(userId, subscriptionId)};
  }

  /** The loop of `doDeleteSubscription`: delete the user's record for each row in turn. */
  method DeleteListedRecords(db: Store, userId: UserId, rows: seq<NotificationRow>)
    modifies db`notifications
    ensures db.notifications == DeleteRecords(old(db.notifications), userId, RowCourses(rows))
  {
    for i := 0 to |rows|
      invariant db.notifications == DeleteRecords(old(db.notifications), userId, RowCourses(rows[..i]))
    {
      assert RowCourses(rows[..i + 1]) == RowCourses(rows[..i]) + [rows[i].courseIdN];
      db.notifications := db.notifications - {(userId, rows[i].courseIdN)};
    }
    assert rows[..|rows|] == rows;
  }

  /** `doc.SubscriptionId.S` of each row, in order. */
  function RowSubscriptions(rows: seq<SubscriptionRow>): (r: seq<string>)
    ensures |r| == |rows|
    ensures forall i :: 0 <= i < |rows| ==> r[i] == rows[i].subscriptionId
  {
    seq(|rows|, i requires 0 <= i < |rows| => rows[i].subscriptionId)
  }

  /**
   * The subscription query for the user ends within `m` requests, lists
   * every subscription the user has, and the index answers for each one
   * listed.
   */
  ghost predicate CascadeAt(env: SubscriptionsEnv, subscriptions: map<(UserId, string), seq<string>>,
                            notifications: Notifications, userId: UserId, m: nat) {
    var request := QueryRequest(env.subscriptionsTable, UserQuery(userId));
    ChainEnds(env.querySubscriptions, request, m)
    && var sids := RowSubscriptions(ChainItems(env.querySubscriptions, request, m));
       (forall k :: k in subscriptions && k.0 == userId ==> k.1 in sids)
       && (forall j :: 0 <= j < |sids| ==> IndexAnswers(env, notifications, userId, sids[j]))
  }

  ghost predicate CascadeAnswers(env: SubscriptionsEnv, db: Store, userId: UserId)
    reads db
  {
    exists m: nat :: CascadeAt(env, db.subscriptions, db.notifications, userId, m)
  }

  /** The distinct values of a sequence. */
  function Members(sids: seq<string>): (r: set<string>)
    ensures forall x :: x in r <==> x in sids
  {
    set x | x in sids
  }

  /** The Subscriptions table without the user's subscriptions among `sids`. */
  function WithoutSubscriptions(subscriptions: map<(UserId, string), seq<string>>, userId: UserId, sids: set<string>)
    : map<(UserId, string), seq<string>>
  {
    map k | k in subscriptions && !(k.0 == userId && k.1 in sids) :: subscriptions[k]
  }

  /** Removing one more subscription and its records. */
  lemma WithoutStep(notifications: Notifications, subscriptions: map<(UserId, string), seq<string>>,
                    userId: UserId, sids: seq<string>, i: nat)
    requires i < |sids|
    ensures WithoutTriggered(WithoutTriggered(notifications, userId, Members(sids[..i])), userId, {sids[i]})
         == WithoutTriggered(notifications, userId, Members(sids[..i + 1]))
    ensures WithoutSubscriptions(subscriptions, userId, Members(sids[..i])) - {(userId, sids[i])}
         == WithoutSubscriptions(subscriptions, userId, Members(sids[..i + 1]))
  {
    PrefixSnoc(sids, i);
    assert Members(sids[..i + 1]) == Members(sids[..i]) + {sids[i]};
  }

  /** The index answers that were valid before the records were deleted still are. */
  lemma AnswersAfterDelete(env: SubscriptionsEnv, before: Notifications, after: Notifications, userId: UserId,
                           sids: seq<string>, i: nat)
    requires i <= |sids|
    requires forall j :: i <= j < |sids| ==> IndexAnswers(env, before, userId, sids[j])
    requires forall k :: k in after ==> k in before && after[k] == before[k]
    ensures forall j :: i <= j < |sids| ==> IndexAnswers(env, after, userId, sids[j])
  {
    forall j | i <= j < |sids|
      ensures IndexAnswers(env, after, userId, sids[j])
    {
      var q := QueryRequest(env.notificationsTable, TriggeredQuery(userId, sids[j]));
      var n: nat :| ChainEnds(env.queryNotifications, q, n)
                    && AnswersIndexQuery(before, userId, sids[j], ChainItems(env.queryNotifications, q, n));
      AnswersIndexQuerySubmap(before, after, userId, sids[j], ChainItems(env.queryNotifications, q, n));
    }
  }

  /**
   * `deleteMyself`: delete each of the user's subscriptions with the
   * records it triggered, then delete the user from the user pool. Records
   * that no listed subscription triggered stay. `adminDeleteOk` says
   * whether AdminDeleteUser resolves; when it throws, the data is gone but
   * the user stays in the pool.
   */
  method DeleteMyself(db: Store, env: SubscriptionsEnv, userId: UserId, adminDeleteOk: bool)
    returns (thrown: bool, ghost sids: seq<string>)
    requires CascadeAnswers(env, db, userId)
    modifies db`notifications, db`subscriptions, db`deletedIdentities
    ensures forall k :: k in old(db.subscriptions) && k.0 == userId ==> k.1 in sids
    ensures db.subscriptions == WithoutSubscriptions(old(db.subscriptions), userId, Members(sids))
    ensures db.notifications == WithoutTriggered(old(db.notifications), userId, Members(sids))
    ensures thrown == !adminDeleteOk
    ensures db.deletedIdentities == old(db.deletedIdentities) + (if adminDeleteOk then [userId] else [])
  {
    ghost var m: nat :| CascadeAt(env, db.subscriptions, db.notifications, userId, m);
    var subscriptions, _ := QueryTable(env.querySubscriptions, env.subscriptionsTable, UserQuery(userId), m);
    var subscriptionIds := RowSubscriptions(subscriptions);
    sids := subscriptionIds;
    DeleteEach(db, env, userId, subscriptionIds);
    thrown := !adminDeleteOk;
    if adminDeleteOk {
      db.deletedIdentities := db.deletedIdentities + [userId];
    }
  }

  /** The loop of `deleteMyself`: `doDeleteSubscription` for each listed subscription in turn. */
  method DeleteEach(db: Store, env: SubscriptionsEnv, userId: UserId, sids: seq<string>)
    requires forall j :: 0 <= j < |sids| ==> IndexAnswers(env, db.notifications, userId, sids[j])
    modifies db`notifications, db`subscriptions
    ensures db.subscriptions == WithoutSubscriptions(old(db.subscriptions), userId, Members(sids))
    ensures db.notifications == WithoutTriggered(old(db.notifications), userId, Members(sids))
  {
    assert sids[..0] == [];
    for i := 0 to |sids|
      invariant db.notifications == WithoutTriggered(old(db.notifications), userId, Members(sids[..i]))
      invariant db.subscriptions == WithoutSubscriptions(old(db.subscriptions), userId, Members(sids[..i]))
      invariant forall j :: i <= j < |sids| ==> IndexAnswers(env, db.notifications, userId, sids[j])
    {
      ghost var before := db.notifications;
      DoDeleteSubscription(db, env, userId, sids[i]);
      WithoutStep(old(db.notifications), old(db.subscriptions), userId, sids, i);
      AnswersAfterDelete(env, before, db.notifications, userId, sids, i + 1);
    }
    assert sids[..|sids|] == sids;
  }

  /**
   * After `deleteMyself` the user has no subscription left, no record that
   * one of their subscriptions triggered, and every other record, the
   * user's orphans included, is unchanged.
   */
  lemma DeleteMyselfLeaves(subscriptions: map<(UserId, string), seq<string>>, notifications: Notifications,
                           userId: UserId, sids: seq<string>)
    requires forall k :: k in subscriptions && k.0 == userId ==> k.1 in sids
    ensures forall k :: k in WithoutSubscriptions(subscriptions, userId, Members(sids)) ==>
                          k.0 != userId && subscriptions[k] == WithoutSubscriptions(subscriptions, userId, Members(sids))[k]
    ensures forall k :: k in subscriptions && k.0 != userId ==> k in WithoutSubscriptions(subscriptions, userId, Members(sids))
    ensures var r := WithoutTriggered(notifications, userId, Members(sids));
            forall k :: k in notifications ==>
                          (k in r <==> !(k.0 == userId && notifications[k].triggeredSubscription in sids))
                          && (k in r ==> r[k] == notifications[k])
  {
  }
}
