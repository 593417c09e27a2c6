/**
 * The three order endpoints over the order collection, seen as a map from id
 * to order: placing an order, marking it ready, and listing the pending
 * orders newest first.
 */
module OrderApi {
  import opened Wrappers
  import opened JsSemantics
  import opened OrderSchema
  import opened Http

  /** The body of POST /api/order/place; its `sessionId` and `status` are overridden. */
  datatype PlaceBody = PlaceBody(
    table: Option<string>, items: seq<LineInput>, total: Option<int>,
    sessionId: Option<string>, status: Option<string>)

  /** The `sessionId` cookie the handler sets (the `secure` flag depends on the deployment). */
  datatype Cookie = Cookie(name: string, value: string, httpOnly: bool, sameSite: string, maxAge: int, path: string)

  /** Seven days, in seconds. */
  const SESSION_MAX_AGE := 60 * 60 * 24 * 7

  /** A handler's reply together with the collection it leaves behind. */
  datatype Step<T> = Step(reply: Reply<T>, orders: map<Id, Order>)

  /** The place handler's reply, the cookie it sets (if any) and the collection it leaves behind. */
  datatype PlaceResult = PlaceResult(reply: Reply<Order>, setCookie: Option<Cookie>, orders: map<Id, Order>)

  /** Every stored order carries the id it is stored under. */
  ghost predicate WellKeyed(orders: map<Id, Order>) {
    forall k :: k in orders ==> orders[k].id == k
  }

  // ---------------------------------------------------------------- place

  /** The session id: the cookie's when it is truthy, otherwise the fresh token. */
  function SessionFor(cookie: Option<string>, freshToken: string): string {
    OrElse(cookie, freshToken)
  }

  /** The cookie written when the request carried none. */
  function CookieFor(cookie: Option<string>, freshToken: string): Option<Cookie> {
    if TruthyString(cookie) then None
    else Some(Cookie("sessionId", freshToken, true, "strict", SESSION_MAX_AGE, "/"))
  }

  /** `{ ...req.body, sessionId, status: "pending" }` as offered to the schema. */
  function PlaceDraft(b: PlaceBody, sessionId: string): OrderDraft {
    OrderDraft(Some(sessionId), b.table, b.items, b.total, Some("pending"))
  }

  /** POST /api/order/place at time `now`; `freshToken` is the UUID and `freshId` the store's new id. */
  function PlaceStep(
    orders: map<Id, Order>, verb: Verb, storeUp: bool, cookie: Option<string>, b: PlaceBody,
    freshToken: string, freshId: Id, now: int): PlaceResult
  {
    if !storeUp then PlaceResult(Reply(SERVER_ERROR, None), None, orders)
    else if verb != Post then PlaceResult(Reply(METHOD_NOT_ALLOWED, None), None, orders)
    else
      var setCookie := CookieFor(cookie, freshToken);
      match Create(freshId, PlaceDraft(b, SessionFor(cookie, freshToken)), now)
      case None => PlaceResult(Reply(SERVER_ERROR, None), setCookie, orders)
      case Some(o) => PlaceResult(Reply(CREATED, Some(o)), setCookie, orders[freshId := o])
  }

  /**
   * A POST succeeds exactly when the body has a truthy table and a total (and the session id is
   * non-empty); then it stores one new order under the fresh id with status `pending`, the chosen
   * session id, and the body's table, lines and total as sent, returning it with 201.
   */
  lemma PlaceCreatesPending(
    orders: map<Id, Order>, cookie: Option<string>, b: PlaceBody, freshToken: string, freshId: Id, now: int)
    requires freshId !in orders
    ensures var s := PlaceStep(orders, Post, true, cookie, b, freshToken, freshId, now);
      (s.reply.status == CREATED <==>
        TruthyString(b.table) && b.total.Some? && SessionFor(cookie, freshToken) != "")
    ensures var s := PlaceStep(orders, Post, true, cookie, b, freshToken, freshId, now);
      s.reply.status == CREATED ==>
        s.reply.body.Some? && s.orders == orders[freshId := s.reply.body.value] && |s.orders| == |orders| + 1 &&
        var o := s.reply.body.value;
        o.id == freshId && o.status == Pending &&
        o.sessionId == SessionFor(cookie, freshToken) &&
        o.table == b.table.value && o.total == b.total.value && o.items == CastLines(b.items) &&
        o.createdAt == now && o.updatedAt == now
    ensures var s := PlaceStep(orders, Post, true, cookie, b, freshToken, freshId, now);
      s.reply.status != CREATED ==> s.reply.status == SERVER_ERROR && s.orders == orders
  {
    CreateAccepts(freshId, PlaceDraft(b, SessionFor(cookie, freshToken)), now);
  }

  /** Whatever `status` and `sessionId` the body carries, the outcome is the same. */
  lemma PlaceOverridesBody(
    orders: map<Id, Order>, verb: Verb, storeUp: bool, cookie: Option<string>, b: PlaceBody,
    freshToken: string, freshId: Id, now: int, status: Option<string>, sessionId: Option<string>)
    ensures PlaceStep(orders, verb, storeUp, cookie, b, freshToken, freshId, now) ==
      PlaceStep(orders, verb, storeUp, cookie, b.(status := status, sessionId := sessionId), freshToken, freshId, now)
  {
  }

  /**
   * The session id is the cookie's when there is one, else the fresh token; a 7-day `sessionId`
   * cookie is set exactly when the request had none, even when the insert then fails.
   */
  lemma PlaceSessionCookie(
    orders: map<Id, Order>, cookie: Option<string>, b: PlaceBody, freshToken: string, freshId: Id, now: int)
    ensures SessionFor(cookie, freshToken) == (if TruthyString(cookie) then cookie.value else freshToken)
    ensures var s := PlaceStep(orders, Post, true, cookie, b, freshToken, freshId, now);
      (s.setCookie.Some? <==> !TruthyString(cookie)) &&
      (s.setCookie.Some? ==> s.setCookie.value == Cookie("sessionId", freshToken, true, "strict", 604800, "/"))
  {
  }

  /** Any verb but POST answers 405, sets no cookie and creates nothing (when the store is reachable). */
  lemma PlaceWrongVerb(
    orders: map<Id, Order>, verb: Verb, cookie: Option<string>, b: PlaceBody, freshToken: string, freshId: Id, now: int)
    requires verb != Post
    ensures PlaceStep(orders, verb, true, cookie, b, freshToken, freshId, now) ==
      PlaceResult(Reply(METHOD_NOT_ALLOWED, None), None, orders)
  {
  }

  // ---------------------------------------------------------------- mark ready

  /** PUT /api/order/update at time `now`: status set to `ready` (and `updatedAt` stamped), 404 for an unknown id. */
  function MarkReadyStep(orders: map<Id, Order>, verb: Verb, storeUp: bool, orderId: Id, now: int): Step<Order>
  {
    if !storeUp then Step(Reply(SERVER_ERROR, None), orders)
    else if verb != Put then Step(Reply(METHOD_NOT_ALLOWED, None), orders)
    else if orderId in orders then
      var updated := orders[orderId].(status := Ready, updatedAt := now);
      Step(Reply(OK, Some(updated)), orders[orderId := updated])
    else Step(Reply(NOT_FOUND, None), orders)
  }

  /**
   * A known id ends `ready` whatever its status was, the reply carries the updated order, and
   * nothing else changes: not its other fields (but `updatedAt`), not any other order.
   */
  lemma MarkReadyKnown(orders: map<Id, Order>, orderId: Id, now: int)
    requires orderId in orders
    ensures var s := MarkReadyStep(orders, Put, true, orderId, now);
      s.reply.status == OK && s.reply.body == Some(s.orders[orderId]) &&
      s.orders.Keys == orders.Keys &&
      s.orders[orderId] == orders[orderId].(status := Ready, updatedAt := now) &&
      (forall k :: k in orders && k != orderId ==> s.orders[k] == orders[k])
  {
  }

  /** An unknown id answers 404 and changes nothing. */
  lemma MarkReadyUnknown(orders: map<Id, Order>, orderId: Id, now: int)
    requires orderId !in orders
    ensures MarkReadyStep(orders, Put, true, orderId, now) == Step(Reply(NOT_FOUND, None), orders)
  {
  }

  /** Marking ready twice answers 200 both times; the second call changes at most `updatedAt`. */
  lemma MarkReadyIdempotent(orders: map<Id, Order>, orderId: Id, now: int, later: int)
    requires orderId in orders
    ensures var once := MarkReadyStep(orders, Put, true, orderId, now);
      var twice := MarkReadyStep(once.orders, Put, true, orderId, later);
      twice.reply.status == OK &&
      twice.orders == once.orders[orderId := once.orders[orderId].(updatedAt := later)] &&
      (now == later ==> twice == once)
  {
  }

  /** Any verb but PUT answers 405 and changes nothing (when the store is reachable). */
  lemma MarkReadyWrongVerb(orders: map<Id, Order>, verb: Verb, orderId: Id, now: int)
    requires verb != Put
    ensures MarkReadyStep(orders, verb, true, orderId, now) == Step(Reply(METHOD_NOT_ALLOWED, None), orders)
  {
  }

  // ---------------------------------------------------------------- pending listing

  /** `find({ status: "pending" })` over an enumeration of the collection. */
  function PendingOnly(s: seq<Order>): (r: seq<Order>)
    ensures |r| <= |s|
  {
    if s == [] then []
    else (if s[0].status == Pending then [s[0]] else []) + PendingOnly(s[1..])
  }

  /** No two orders share an id. */
  predicate DistinctIds(s: seq<Order>) {
    forall i, j :: 0 <= i < j < |s| ==> s[i].id != s[j].id
  }

  /** `createdAt` never increases along `s`. */
  predicate NewestFirst(s: seq<Order>) {
    forall i, j :: 0 <= i < j < |s| ==> s[i].createdAt >= s[j].createdAt
  }

  /** Place `o` before the first order not newer than it. */
  function InsertByNewest(o: Order, s: seq<Order>): (r: seq<Order>)
  {
    if s == [] || o.createdAt >= s[0].createdAt then [o] + s
    else [s[0]] + InsertByNewest(o, s[1..])
  }

  /** `.sort({ createdAt: -1 })`, as an insertion sort. */
  function SortNewestFirst(s: seq<Order>): (r: seq<Order>)
  {
    if s == [] then [] else InsertByNewest(s[0], SortNewestFirst(s[1..]))
  }

  /** The pending orders of an enumeration, newest first. */
  function PendingNewestFirst(s: seq<Order>): seq<Order> {
    SortNewestFirst(PendingOnly(s))
  }

  /** The filter keeps exactly the pending orders. */
  lemma {:induction false} PendingOnlyMembers(s: seq<Order>)
    ensures forall x :: x in PendingOnly(s) <==> x in s && x.status == Pending
  {
    if s != [] {
      PendingOnlyMembers(s[1..]);
      assert s == [s[0]] + s[1..];
    }
  }

  lemma DistinctCons(a: Order, t: seq<Order>)
    ensures DistinctIds([a] + t) <==> DistinctIds(t) && forall x :: x in t ==> x.id != a.id
  {
    var s := [a] + t;
    if DistinctIds(t) && forall x :: x in t ==> x.id != a.id {
      forall i, j | 0 <= i < j < |s| ensures s[i].id != s[j].id {
        if i == 0 {
          assert s[j] == t[j - 1];
        } else {
          assert s[i] == t[i - 1] && s[j] == t[j - 1];
        }
      }
    }
    if DistinctIds(s) {
      forall x | x in t ensures x.id != a.id {
        var j :| 0 <= j < |t| && t[j] == x;
        assert s[0] == a && s[j + 1] == x;
      }
      forall i, j | 0 <= i < j < |t| ensures t[i].id != t[j].id {
        assert s[i + 1] == t[i] && s[j + 1] == t[j];
      }
    }
  }

  /** Filtering keeps ids distinct. */
  lemma {:induction false} PendingOnlyDistinct(s: seq<Order>)
    requires DistinctIds(s)
    ensures DistinctIds(PendingOnly(s))
  {
    if s != [] {
      assert s == [s[0]] + s[1..];
      DistinctCons(s[0], s[1..]);
      PendingOnlyDistinct(s[1..]);
      PendingOnlyMembers(s[1..]);
      if s[0].status == Pending {
        DistinctCons(s[0], PendingOnly(s[1..]));
      }
    }
  }

  /** Insertion adds `o` and nothing else. */
  lemma {:induction false} InsertByNewestPermutes(o: Order, s: seq<Order>)
    ensures multiset(InsertByNewest(o, s)) == multiset(s) + multiset{o}
  {
    if s != [] && o.createdAt < s[0].createdAt {
      InsertByNewestPermutes(o, s[1..]);
      assert s == [s[0]] + s[1..];
    }
  }

  /** Insertion into a newest-first sequence keeps it newest first. */
  lemma {:induction false} InsertByNewestSorted(o: Order, s: seq<Order>)
    requires NewestFirst(s)
    ensures NewestFirst(InsertByNewest(o, s))
  {
    if s != [] && o.createdAt < s[0].createdAt {
      var t := InsertByNewest(o, s[1..]);
      InsertByNewestSorted(o, s[1..]);
      InsertByNewestPermutes(o, s[1..]);
      forall x | x in t ensures s[0].createdAt >= x.createdAt {
        assert x in multiset(t);
        if x != o {
          assert x in multiset(s[1..]);
        }
      }
      NewestFirstCons(s[0], t);
    }
  }

  /** An order at least as new as every order of a newest-first sequence can go in front. */
  lemma NewestFirstCons(a: Order, t: seq<Order>)
    requires NewestFirst(t) && forall x :: x in t ==> a.createdAt >= x.createdAt
    ensures NewestFirst([a] + t)
  {
    var r := [a] + t;
    forall i, j | 0 <= i < j < |r| ensures r[i].createdAt >= r[j].createdAt {
      assert r[j] == t[j - 1];
      if i > 0 {
        assert r[i] == t[i - 1];
      }
    }
  }

  /** Insertion of an order whose id is new keeps ids distinct. */
  lemma {:induction false} InsertByNewestDistinct(o: Order, s: seq<Order>)
    requires DistinctIds(s) && forall x :: x in s ==> x.id != o.id
    ensures DistinctIds(InsertByNewest(o, s))
  {
    if s == [] || o.createdAt >= s[0].createdAt {
      DistinctCons(o, s);
    } else {
      assert s == [s[0]] + s[1..];
      DistinctCons(s[0], s[1..]);
      var t := InsertByNewest(o, s[1..]);
      InsertByNewestDistinct(o, s[1..]);
      InsertByNewestPermutes(o, s[1..]);
      forall x | x in t ensures x.id != s[0].id {
        assert x in multiset(t);
        if x != o {
          assert x in multiset(s[1..]);
        }
      }
      DistinctCons(s[0], t);
    }
  }

  /** Sorting permutes, orders newest first and keeps ids distinct. */
  lemma {:induction false} SortNewestFirstCorrect(s: seq<Order>)
    ensures multiset(SortNewestFirst(s)) == multiset(s)
    ensures NewestFirst(SortNewestFirst(s))
    ensures DistinctIds(s) ==> DistinctIds(SortNewestFirst(s))
  {
    if s != [] {
      var t := SortNewestFirst(s[1..]);
      SortNewestFirstCorrect(s[1..]);
      assert s == [s[0]] + s[1..];
      InsertByNewestPermutes(s[0], t);
      InsertByNewestSorted(s[0], t);
      if DistinctIds(s) {
        DistinctCons(s[0], s[1..]);
        forall x | x in t ensures x.id != s[0].id {
          assert x in multiset(s[1..]);
        }
        InsertByNewestDistinct(s[0], t);
      }
    }
  }

  /**
   * The listing holds exactly the pending orders of the enumeration, each as often as there, newest
   * first; with distinct ids in, ids stay distinct.
   */
  lemma PendingNewestFirstCorrect(s: seq<Order>)
    ensures NewestFirst(PendingNewestFirst(s))
    ensures multiset(PendingNewestFirst(s)) == multiset(PendingOnly(s))
    ensures forall x :: x in PendingNewestFirst(s) <==> x in s && x.status == Pending
    ensures DistinctIds(s) ==> DistinctIds(PendingNewestFirst(s))
  {
    SortNewestFirstCorrect(PendingOnly(s));
    PendingOnlyMembers(s);
    if DistinctIds(s) {
      PendingOnlyDistinct(s);
    }
    forall x ensures x in PendingNewestFirst(s) <==> x in PendingOnly(s) {
      assert x in PendingNewestFirst(s) <==> x in multiset(PendingNewestFirst(s));
      assert x in PendingOnly(s) <==> x in multiset(PendingOnly(s));
    }
  }

  /** `r` is what GET /api/order/get returns for `orders`. */
  ghost predicate IsPendingListing(orders: map<Id, Order>, r: seq<Order>) {
    NewestFirst(r) &&
    (forall i :: 0 <= i < |r| ==> r[i].id in orders && orders[r[i].id] == r[i] && r[i].status == Pending) &&
    DistinctIds(r) &&
    (forall k :: k in orders && orders[k].status == Pending ==> orders[k] in r)
  }

  /** Listing every stored order once and keeping the pending ones newest first is a pending listing. */
  lemma PendingListingOf(orders: map<Id, Order>, all: seq<Order>)
    requires WellKeyed(orders) && DistinctIds(all)
    requires forall i :: 0 <= i < |all| ==> all[i].id in orders && orders[all[i].id] == all[i]
    requires forall k :: k in orders ==> orders[k] in all
    ensures IsPendingListing(orders, PendingNewestFirst(all))
  {
    var r := PendingNewestFirst(all);
    PendingNewestFirstCorrect(all);
    forall i | 0 <= i < |r|
      ensures r[i].id in orders && orders[r[i].id] == r[i] && r[i].status == Pending
    {
      assert r[i] in r;
      var j :| 0 <= j < |all| && all[j] == r[i];
    }
  }

  /** After an order is marked ready, no later listing shows it. */
  lemma ReadyNeverListed(orders: map<Id, Order>, orderId: Id, now: int, r: seq<Order>)
    requires MarkReadyStep(orders, Put, true, orderId, now).reply.status == OK
    requires IsPendingListing(MarkReadyStep(orders, Put, true, orderId, now).orders, r)
    ensures forall i :: 0 <= i < |r| ==> r[i].id != orderId
  {
  }

  // ---------------------------------------------------------------- the store

  /** The order collection. */
  class OrderStore {
    var orders: map<Id, Order>

    ghost predicate Valid()
      reads this
    {
      WellKeyed(orders)
    }

    constructor ()
      ensures Valid() && orders == map[]
    {
      orders := map[];
    }

    /** POST /api/order/place; returns the reply and the cookie it sets. */
    method Place(
      verb: Verb, storeUp: bool, cookie: Option<string>, body: PlaceBody,
      freshToken: string, freshId: Id, now: int) returns (reply: Reply<Order>, setCookie: Option<Cookie>)
      requires Valid() && freshId !in orders
      modifies this
      ensures Valid()
      ensures PlaceResult(reply, setCookie, orders) ==
        PlaceStep(old(orders), verb, storeUp, cookie, body, freshToken, freshId, now)
    {
      setCookie := None;
      if !storeUp {
        return Reply(SERVER_ERROR, None), None;
      }
      if verb != Post {
        return Reply(METHOD_NOT_ALLOWED, None), None;
      }
      var sessionId := cookie.GetOr("");
      if sessionId == "" {
        sessionId := freshToken;
        setCookie := Some(Cookie("sessionId", sessionId, true, "strict", SESSION_MAX_AGE, "/"));
      }
      var created := Create(freshId, OrderDraft(Some(sessionId), body.table, body.items, body.total, Some("pending")), now);
      if created.None? {
        return Reply(SERVER_ERROR, None), setCookie;
      }
      orders := orders[freshId := created.value];
      reply := Reply(CREATED, created);
    }

    /** PUT /api/order/update at time `now`. */
    method MarkReady(verb: Verb, storeUp: bool, orderId: Id, now: int) returns (reply: Reply<Order>)
      requires Valid()
      modifies this
      ensures Valid()
      ensures Step(reply, orders) == MarkReadyStep(old(orders), verb, storeUp, orderId, now)
    {
      if !storeUp {
        return Reply(SERVER_ERROR, None);
      }
      if verb != Put {
        return Reply(METHOD_NOT_ALLOWED, None);
      }
      if orderId !in orders {
        return Reply(NOT_FOUND, None);
      }
      var updated := orders[orderId].(status := Ready, updatedAt := now);
      orders := orders[orderId := updated];
      reply := Reply(OK, Some(updated));
    }

    /** GET /api/order/get: the pending orders, newest first; the store is only read. */
    method ListPending(verb: Verb, storeUp: bool) returns (reply: Reply<seq<Order>>)
      requires Valid()
      ensures !storeUp ==> reply == Reply(SERVER_ERROR, None)
      ensures storeUp && verb != Get ==> reply == Reply(METHOD_NOT_ALLOWED, None)
      ensures storeUp && verb == Get ==>
        reply.status == OK && reply.body.Some? && IsPendingListing(orders, reply.body.value)
    {
      if !storeUp {
        return Reply(SERVER_ERROR, None);
      }
      if verb != Get {
        return Reply(METHOD_NOT_ALLOWED, None);
      }
      var m := orders;
      var ks := FindIds(m);
      var all := seq(|ks|, i requires 0 <= i < |ks| => m[ks[i]]);
      assert forall i :: 0 <= i < |all| ==> all[i].id == ks[i];
      forall k | k in m
        ensures m[k] in all
      {
        var j :| 0 <= j < |ks| && ks[j] == k;
        assert all[j] == m[k];
      }
      PendingListingOf(m, all);
      reply := Reply(OK, Some(PendingNewestFirst(all)));
    }
  }
}
