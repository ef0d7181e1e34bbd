/**
 * `scanTable` and `queryTable`: read every page of a DynamoDB scan or query,
 * following `LastEvaluatedKey`, and concatenate the items.
 *
 * DynamoDB itself is a function from a request to a page. The reader stops
 * only when a page comes back without `LastEvaluatedKey`; the ghost bound
 * `n` of `ChainEnds` is the number of requests after which the service
 * answers so.
 */
module TableReaders {
  import opened Wrappers
  import opened Seqs

  /** A request parameter: text, or a key to start after. */
  datatype Param<K> = PText(text: string) | PKey(key: K)

  /** Request parameters by name (`TableName`, `ExclusiveStartKey`, `IndexName`, ...). */
  type Request<K> = map<string, Param<K>>

  datatype Page<K, I> = Page(items: Option<seq<I>>, lastEvaluatedKey: Option<K>)

  /** `items.Items?.forEach(push)`: a page without Items adds nothing. */
  function PageItems<K, I>(p: Page<K, I>): seq<I> {
    if p.items.Some? then p.items.value else []
  }

  /** `params.ExclusiveStartKey = key`. */
  function WithStartKey<K>(req: Request<K>, key: K): Request<K> {
    req["ExclusiveStartKey" := PKey(key)]
  }

  /** The service ends the chain of pages that starts at `req` within `n` requests. */
  ghost predicate ChainEnds<K, I>(respond: Request<K> -> Page<K, I>, req: Request<K>, n: nat)
    decreases n
  {
    n > 0 &&
    (respond(req).lastEvaluatedKey.None?
     || ChainEnds(respond, WithStartKey(req, respond(req).lastEvaluatedKey.value), n - 1))
  }

  /** The items of the whole chain of pages that starts at `req`. */
  ghost function ChainItems<K, I>(respond: Request<K> -> Page<K, I>, req: Request<K>, n: nat): seq<I>
    requires ChainEnds(respond, req, n)
    decreases n
  {
    var p := respond(req);
    if p.lastEvaluatedKey.None? then PageItems(p)
    else PageItems(p) + ChainItems(respond, WithStartKey(req, p.lastEvaluatedKey.value), n - 1)
  }

  /** The chain's items do not depend on the bound it was shown to end within. */
  lemma {:induction false} ChainItemsAnyBound<K, I>(respond: Request<K> -> Page<K, I>, req: Request<K>, n: nat, m: nat)
    requires ChainEnds(respond, req, n) && ChainEnds(respond, req, m)
    ensures ChainItems(respond, req, n) == ChainItems(respond, req, m)
    decreases n
  {
    var p := respond(req);
    if p.lastEvaluatedKey.Some? {
      ChainItemsAnyBound(respond, WithStartKey(req, p.lastEvaluatedKey.value), n - 1, m - 1);
    }
  }

  /** The service ends the chain of pages that starts at `req`. */
  ghost predicate ChainTerminates<K, I>(respond: Request<K> -> Page<K, I>, req: Request<K>) {
    exists n: nat :: ChainEnds(respond, req, n)
  }

  /** The items of the whole chain, whatever bound it ends within. */
  ghost function AllItems<K, I>(respond: Request<K> -> Page<K, I>, req: Request<K>): (items: seq<I>)
    requires ChainTerminates(respond, req)
    ensures forall n: nat :: ChainEnds(respond, req, n) ==> items == ChainItems(respond, req, n)
  {
    var n: nat :| ChainEnds(respond, req, n);
    forall m: nat | ChainEnds(respond, req, m)
      ensures ChainItems(respond, req, n) == ChainItems(respond, req, m)
    {
      ChainItemsAnyBound(respond, req, n, m);
    }
    ChainItems(respond, req, n)
  }

  /** The items of the pages answering `requests`, in request order. */
  ghost function ItemsOf<K, I>(respond: Request<K> -> Page<K, I>, requests: seq<Request<K>>): seq<I> {
    if requests == [] then []
    else ItemsOf(respond, requests[..|requests| - 1]) + PageItems(respond(requests[|requests| - 1]))
  }

  /**
   * The requests a reader makes: the first is `first`, each next one is the
   * previous one with `ExclusiveStartKey` set to the previous page's
   * `LastEvaluatedKey`, and only the last page has no `LastEvaluatedKey`.
   */
  ghost predicate FollowsKeys<K, I>(respond: Request<K> -> Page<K, I>, first: Request<K>, requests: seq<Request<K>>) {
    && |requests| >= 1
    && requests[0] == first
    && Linked(respond, requests)
    && respond(requests[|requests| - 1]).lastEvaluatedKey.None?
  }

  /** Each request after the first starts after the key the previous page ended on. */
  ghost predicate Linked<K, I>(respond: Request<K> -> Page<K, I>, requests: seq<Request<K>>) {
    forall k :: 0 <= k < |requests| - 1 ==>
      respond(requests[k]).lastEvaluatedKey.Some?
      && requests[k + 1] == WithStartKey(requests[k], respond(requests[k]).lastEvaluatedKey.value)
  }

  lemma LinkedSnoc<K, I>(respond: Request<K> -> Page<K, I>, requests: seq<Request<K>>)
    requires |requests| >= 1 && Linked(respond, requests)
    requires respond(requests[|requests| - 1]).lastEvaluatedKey.Some?
    ensures var last := requests[|requests| - 1];
            Linked(respond, requests + [WithStartKey(last, respond(last).lastEvaluatedKey.value)])
  {
  }

  /** A page with a key continues the chain from the next request, one request fewer. */
  lemma ChainStep<K, I>(respond: Request<K> -> Page<K, I>, req: Request<K>, n: nat)
    requires ChainEnds(respond, req, n) && respond(req).lastEvaluatedKey.Some?
    ensures var next := WithStartKey(req, respond(req).lastEvaluatedKey.value);
            n >= 1 && ChainEnds(respond, next, n - 1)
            && ChainItems(respond, req, n) == PageItems(respond(req)) + ChainItems(respond, next, n - 1)
  {
  }

  /** Answering one more request appends that page's items. */
  lemma ItemsOfSnoc<K, I>(respond: Request<K> -> Page<K, I>, requests: seq<Request<K>>, req: Request<K>)
    ensures ItemsOf(respond, requests + [req]) == ItemsOf(respond, requests) + PageItems(respond(req))
  {
    assert (requests + [req])[..|requests|] == requests;
  }

  /**
   * The reader's state after answering `requests`: they follow the keys from
   * `first`, `results` holds their items, and the chain from the last of
   * them ends within `left` requests and supplies the rest of the items.
   */
  ghost predicate Reading<K, I>(respond: Request<K> -> Page<K, I>, first: Request<K>, n: nat,
                                requests: seq<Request<K>>, results: seq<I>, left: nat) {
    && ChainEnds(respond, first, n)
    && |requests| >= 1 && requests[0] == first
    && Linked(respond, requests)
    && results == ItemsOf(respond, requests)
    && ChainEnds(respond, requests[|requests| - 1], left)
    && ItemsOf(respond, requests[..|requests| - 1]) + ChainItems(respond, requests[|requests| - 1], left)
       == ChainItems(respond, first, n)
  }

  /** The first request starts the read. */
  lemma ReadingStart<K, I>(respond: Request<K> -> Page<K, I>, first: Request<K>, n: nat)
    requires ChainEnds(respond, first, n)
    ensures Reading(respond, first, n, [first], PageItems(respond(first)), n)
  {
    assert [first][..0] == [];
    assert ItemsOf(respond, [first]) == ItemsOf(respond, [first][..0]) + PageItems(respond(first));
  }

  /** Following the last page's key keeps the reader's state. */
  lemma ReadingStep<K, I>(respond: Request<K> -> Page<K, I>, first: Request<K>, n: nat,
                          requests: seq<Request<K>>, results: seq<I>, left: nat)
    requires Reading(respond, first, n, requests, results, left)
    requires respond(requests[|requests| - 1]).lastEvaluatedKey.Some?
    ensures var last := requests[|requests| - 1];
            var next := WithStartKey(last, respond(last).lastEvaluatedKey.value);
            left >= 1 && Reading(respond, first, n, requests + [next], results + PageItems(respond(next)), left - 1)
  {
    var last := requests[|requests| - 1];
    var next := WithStartKey(last, respond(last).lastEvaluatedKey.value);
    ChainStep(respond, last, left);
    LinkedSnoc(respond, requests);
    ItemsOfSnoc(respond, requests, next);
    assert (requests + [next])[..|requests|] == requests;
  }

  /** A last page without a key completes the read. */
  lemma ReadingDone<K, I>(respond: Request<K> -> Page<K, I>, first: Request<K>, n: nat,
                          requests: seq<Request<K>>, results: seq<I>, left: nat)
    requires Reading(respond, first, n, requests, results, left)
    requires respond(requests[|requests| - 1]).lastEvaluatedKey.None?
    ensures FollowsKeys(respond, first, requests)
    ensures results == ItemsOf(respond, requests)
    ensures results == ChainItems(respond, first, n)
  {
  }

  /** The do-while loop shared by `scanTable` and `queryTable`. */
  method Paginate<K, I>(respond: Request<K> -> Page<K, I>, first: Request<K>, ghost n: nat)
    returns (results: seq<I>, requests: seq<Request<K>>)
    requires ChainEnds(respond, first, n)
    ensures FollowsKeys(respond, first, requests)
    ensures results == ItemsOf(respond, requests)
    ensures results == ChainItems(respond, first, n)
  {
    var params := first;
    var items := respond(params);
    results := PageItems(items);
    requests := [params];
    ghost var left := n;
    ReadingStart(respond, first, n);
    while items.lastEvaluatedKey.Some?
      invariant Reading(respond, first, n, requests, results, left)
      invariant params == requests[|requests| - 1] && items == respond(params)
      decreases left
    {
      ReadingStep(respond, first, n, requests, results, left);
      params := WithStartKey(params, items.lastEvaluatedKey.value);
      left := left - 1;
      items := respond(params);
      requests := requests + [params];
      results := results + PageItems(items);
    }
    ReadingDone(respond, first, n, requests, results, left);
  }

  /** `{TableName: tableName}`: the first request of `scanTable`. */
  function ScanRequest<K>(tableName: string): (r: Request<K>)
    ensures r.Keys == {"TableName"} && r["TableName"] == PText(tableName)
  {
    map["TableName" := PText(tableName)]
  }

  /**
   * `{TableName: tableName, ...params}`: the first request of `queryTable`.
   * The caller's parameters win, `TableName` included.
   */
  function QueryRequest<K>(tableName: string, params: Request<K>): (r: Request<K>)
    ensures r.Keys == params.Keys + {"TableName"}
    ensures forall name :: name in params ==> r[name] == params[name]
    ensures "TableName" !in params ==> r["TableName"] == PText(tableName)
  {
    map["TableName" := PText(tableName)] + params
  }

  method ScanTable<K, I>(scan: Request<K> -> Page<K, I>, tableName: string, ghost n: nat)
    returns (results: seq<I>, requests: seq<Request<K>>)
    requires ChainEnds(scan, ScanRequest(tableName), n)
    ensures FollowsKeys(scan, ScanRequest(tableName), requests)
    ensures results == ItemsOf(scan, requests)
    ensures results == ChainItems(scan, ScanRequest(tableName), n)
  {
    results, requests := Paginate(scan, ScanRequest(tableName), n);
  }

  method QueryTable<K, I>(query: Request<K> -> Page<K, I>, tableName: string, params: Request<K>, ghost n: nat)
    returns (results: seq<I>, requests: seq<Request<K>>)
    requires ChainEnds(query, QueryRequest(tableName, params), n)
    ensures FollowsKeys(query, QueryRequest(tableName, params), requests)
    ensures results == ItemsOf(query, requests)
    ensures results == ChainItems(query, QueryRequest(tableName, params), n)
  {
    results, requests := Paginate(query, QueryRequest(tableName, params), n);
  }

  /** Where a request starts reading a table served in pages of positions. */
  function StartOf(req: Request<nat>): nat {
    if "ExclusiveStartKey" in req && req["ExclusiveStartKey"].PKey? then req["ExclusiveStartKey"].key else 0
  }

  /**
   * A table of `all` items served `size` at a time, the key of a page being
   * the position after its last item.
   */
  function ChunkPage<I>(all: seq<I>, size: nat, req: Request<nat>): Page<nat, I>
    requires size > 0
  {
    var s := StartOf(req);
    if s + size < |all| then Page(Some(all[s..s + size]), Some(s + size))
    else Page(Some(if s <= |all| then all[s..] else []), None)
  }

  /**
   * Paging loses and repeats nothing: following the keys from any start
   * position ends, and yields exactly the items from that position on.
   */
  lemma {:induction false} ChunkedChainReadsRest<I>(respond: Request<nat> -> Page<nat, I>, all: seq<I>, size: nat,
                                                    req: Request<nat>, n: nat)
    requires size > 0
    requires forall q :: respond(q) == ChunkPage(all, size, q)
    requires n >= 1 && StartOf(req) + n >= |all|
    ensures ChainEnds(respond, req, n)
    ensures ChainItems(respond, req, n) == (if StartOf(req) <= |all| then all[StartOf(req)..] else [])
    decreases n
  {
    var s := StartOf(req);
    var p := respond(req);
    assert p == ChunkPage(all, size, req);
    if s + size < |all| {
      var next := WithStartKey(req, s + size);
      assert p.lastEvaluatedKey == Some(s + size) && PageItems(p) == all[s..s + size];
      assert StartOf(next) == s + size;
      ChunkedChainReadsRest(respond, all, size, next, n - 1);
      assert ChainItems(respond, req, n) == all[s..s + size] + all[s + size..];
      SuffixSplit(all, s, s + size);
    } else {
      assert p.lastEvaluatedKey.None?;
      assert ChainItems(respond, req, n) == PageItems(p);
    }
  }

  /** A scan of such a table returns the whole table, in order. */
  lemma ScanReadsWholeTable<I>(scan: Request<nat> -> Page<nat, I>, all: seq<I>, size: nat, tableName: string)
    requires size > 0
    requires forall q :: scan(q) == ChunkPage(all, size, q)
    ensures ChainEnds(scan, ScanRequest(tableName), |all| + 1)
    ensures ChainItems(scan, ScanRequest(tableName), |all| + 1) == all
  {
    var first: Request<nat> := ScanRequest(tableName);
    assert StartOf(first) == 0;
    ChunkedChainReadsRest(scan, all, size, first, |all| + 1);
  }
}
