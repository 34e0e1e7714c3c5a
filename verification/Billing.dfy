/** The adapter over Stripe: app/stripe_client.py.

    Turns the provider's payloads into this service's values, and chooses which of a customer's
    subscriptions is the current one.
 */
module Billing {
  import opened Models

  /** A reference that may arrive expanded or as a bare id. */
  datatype RawPrice = Absent | BareId(id: string) | Expanded(id: string, interval: string, tier: string)

  datatype RawItem = RawItem(price: RawPrice, periodStart: Option<int>, periodEnd: Option<int>)

  datatype RawSubscription = RawSubscription(
    id: string,
    customer: Option<string>,
    status: string,
    items: seq<RawItem>,
    periodStart: Option<int>,
    periodEnd: Option<int>,
    cancelAtPeriodEnd: bool,
    trialEnd: Option<int>,
    discount: Option<Discount>,
    created: int)

  /** Each subscription's metadata, by subscription id. */
  type Metadata = map<string, map<string, string>>

  /** Stripe's vocabulary. Anything unlisted is treated as no paid access. */
  function StatusOf(word: string): Status {
    if word == "active" then Active
    else if word == "trialing" then Trialing
    else if word == "past_due" then PastDue
    else if word == "unpaid" then PastDue
    else if word == "paused" then Paused
    else if word == "incomplete" then Incomplete
    else NoSubscription
  }

  predicate Ended(word: string) {
    word == "canceled" || word == "incomplete_expired"
  }

  const PRIORITY: seq<string> := ["active", "trialing", "past_due", "unpaid", "paused", "incomplete"]

  /** Seconds since the epoch; the service reads a zero as no timestamp. */
  function Timestamp(value: Option<int>): Option<Instant> {
    if value.Some? && value.value != 0 then Some(value.value * SECOND) else None
  }

  function Price(raw: RawPrice): Option<RemotePrice> {
    match raw
    case Absent => None
    case BareId(id) => if id == "" then None else Some(RemotePrice(id, None, None))
    case Expanded(id, interval, tier) =>
      Some(RemotePrice(
             id,
             if interval == "month" then Some(Monthly)
             else if interval == "year" then Some(Annual) else None,
             if tier == "" then None else Some(tier)))
  }

  /** The billing period, from the subscription or else from its first item. */
  function Period(raw: RawSubscription): (Option<int>, Option<int>) {
    if raw.periodStart.Some? && raw.periodEnd.Some? then (raw.periodStart, raw.periodEnd)
    else if raw.items != [] then (raw.items[0].periodStart, raw.items[0].periodEnd)
    else (None, None)
  }

  function Parse(raw: RawSubscription, store: Metadata): RemoteSubscription {
    var period := Period(raw);
    RemoteSubscription(
      raw.id, raw.customer, StatusOf(raw.status), raw.status, Ended(raw.status),
      if raw.items == [] then None else Price(raw.items[0].price),
      Timestamp(period.0), Timestamp(period.1),
      raw.cancelAtPeriodEnd, Timestamp(raw.trialEnd), raw.discount,
      if raw.id in store then store[raw.id] else map[])
  }

  /** The first subscription with this status, from position `i` on. */
  function FirstWith(subs: seq<RawSubscription>, word: string, i: nat): Option<nat>
    requires i <= |subs|
    decreases |subs| - i
  {
    if i == |subs| then None
    else if subs[i].status == word then Some(i)
    else FirstWith(subs, word, i + 1)
  }

  function ByPriority(subs: seq<RawSubscription>, p: nat): Option<nat>
    requires p <= |PRIORITY|
    decreases |PRIORITY| - p
  {
    if p == |PRIORITY| then None
    else if FirstWith(subs, PRIORITY[p], 0).Some? then FirstWith(subs, PRIORITY[p], 0)
    else ByPriority(subs, p + 1)
  }

  /** The first of the most recently created. */
  function Newest(subs: seq<RawSubscription>, n: nat): (best: nat)
    requires 0 < n <= |subs|
    ensures best < n
  {
    if n == 1 then 0
    else
      var best := Newest(subs, n - 1);
      if subs[n - 1].created > subs[best].created then n - 1 else best
  }

  /** Which subscription of a customer is mirrored, as a position in Stripe's list. */
  function CurrentIndex(subs: seq<RawSubscription>): nat
    requires subs != []
  {
    match ByPriority(subs, 0)
    case Some(i) => i
    case None => Newest(subs, |subs|)
  }

  /** Stripe lists at most this many subscriptions of one customer. */
  const FETCH_LIMIT: nat := 100

  function Listed(subs: seq<RawSubscription>): seq<RawSubscription> {
    if |subs| <= FETCH_LIMIT then subs else subs[..FETCH_LIMIT]
  }

  function FetchCurrent(subs: seq<RawSubscription>, store: Metadata): Option<RemoteSubscription> {
    if Listed(subs) == [] then None
    else
      CurrentInRange(Listed(subs));
      Some(Parse(Listed(subs)[CurrentIndex(Listed(subs))], store))
  }

  lemma {:induction false} FirstWithIsFirst(subs: seq<RawSubscription>, word: string, i: nat)
    requires i <= |subs|
    ensures match FirstWith(subs, word, i)
            case Some(k) => i <= k < |subs| && subs[k].status == word && forall j :: i <= j < k ==> subs[j].status != word
            case None => forall j :: i <= j < |subs| ==> subs[j].status != word
    decreases |subs| - i
  {
    if i < |subs| && subs[i].status != word {
      FirstWithIsFirst(subs, word, i + 1);
    }
  }

  lemma {:induction false} ByPriorityIsBest(subs: seq<RawSubscription>, p: nat)
    requires p <= |PRIORITY|
    ensures match ByPriority(subs, p)
            case Some(k) => k < |subs| && exists q :: p <= q < |PRIORITY| && BestAt(subs, p, q, k)
            case None => forall q, j :: p <= q < |PRIORITY| && 0 <= j < |subs| ==> subs[j].status != PRIORITY[q]
    decreases |PRIORITY| - p
  {
    if p < |PRIORITY| {
      FirstWithIsFirst(subs, PRIORITY[p], 0);
      match FirstWith(subs, PRIORITY[p], 0)
      case Some(k) => assert BestAt(subs, p, p, k);
      case None =>
        ByPriorityIsBest(subs, p + 1);
        if ByPriority(subs, p + 1).Some? {
          var k := ByPriority(subs, p + 1).value;
          var q :| p + 1 <= q < |PRIORITY| && BestAt(subs, p + 1, q, k);
          assert BestAt(subs, p, q, k);
        }
    }
  }

  /** Position `k` holds the status of priority `q`, first of its kind, and none better exists. */
  ghost predicate BestAt(subs: seq<RawSubscription>, from: nat, q: nat, k: nat)
    requires q < |PRIORITY|
  {
    && k < |subs|
    && subs[k].status == PRIORITY[q]
    && (forall j :: 0 <= j < k ==> subs[j].status != PRIORITY[q])
    && (forall r, j :: from <= r < q && 0 <= j < |subs| ==> subs[j].status != PRIORITY[r])
  }

  lemma {:induction false} NewestIsMax(subs: seq<RawSubscription>, n: nat)
    requires 0 < n <= |subs|
    ensures forall j :: 0 <= j < n ==> subs[j].created <= subs[Newest(subs, n)].created
    ensures forall j :: 0 <= j < Newest(subs, n) ==> subs[j].created < subs[Newest(subs, n)].created
  {
    if n > 1 { NewestIsMax(subs, n - 1); }
  }

  lemma CurrentInRange(subs: seq<RawSubscription>)
    requires subs != []
    ensures CurrentIndex(subs) < |subs|
  {
    ByPriorityIsBest(subs, 0);
    NewestIsMax(subs, |subs|);
  }

  /** What each of Stripe's words means: four of them pay, two have ended, and one this service has never
      heard of is no subscription. */
  lemma WordsMean(word: string)
    ensures StatusOf(word).GrantsAccess() <==> word in {"active", "trialing", "past_due", "unpaid"}
    ensures StatusOf(word).Active? <==> word == "active"
    ensures StatusOf(word).Trialing? <==> word == "trialing"
    ensures StatusOf(word).PastDue? <==> word in {"past_due", "unpaid"}
    ensures StatusOf(word).Paused? <==> word == "paused"
    ensures StatusOf(word).Incomplete? <==> word == "incomplete"
    ensures StatusOf(word).NoSubscription? <==>
            word !in {"active", "trialing", "past_due", "unpaid", "paused", "incomplete"}
    ensures Ended(word) <==> word in {"canceled", "incomplete_expired"}
    ensures Ended(word) ==> StatusOf(word).NoSubscription?
  {
  }

  predicate Lists(subs: seq<RawSubscription>, word: string) {
    exists j :: 0 <= j < |subs| && subs[j].status == word
  }

  predicate IsFirst(subs: seq<RawSubscription>, word: string, k: nat) {
    k < |subs| && subs[k].status == word && forall j :: 0 <= j < k ==> subs[j].status != word
  }

  lemma FirstOfPriority(subs: seq<RawSubscription>, p: nat)
    requires p < |PRIORITY| && Lists(subs, PRIORITY[p])
    requires forall q :: 0 <= q < p ==> !Lists(subs, PRIORITY[q])
    ensures subs != [] && IsFirst(subs, PRIORITY[p], CurrentIndex(subs))
  {
    ByPriorityIsBest(subs, 0);
    var j :| 0 <= j < |subs| && subs[j].status == PRIORITY[p];
    var k := ByPriority(subs, 0).value;
    var q :| 0 <= q < |PRIORITY| && BestAt(subs, 0, q, k);
    assert Lists(subs, PRIORITY[q]);
  }

  lemma NewestOfTheRest(subs: seq<RawSubscription>)
    requires subs != [] && forall q :: 0 <= q < |PRIORITY| ==> !Lists(subs, PRIORITY[q])
    ensures var k := CurrentIndex(subs);
            && k < |subs| && (forall j :: 0 <= j < |subs| ==> subs[j].created <= subs[k].created)
            && forall j :: 0 <= j < k ==> subs[j].created < subs[k].created
  {
    ByPriorityIsBest(subs, 0);
    NewestIsMax(subs, |subs|);
  }

  /** Which subscription is current, in Stripe's words: the first that is active, or else trialing, past_due,
      unpaid, paused or incomplete, in this order; and of nothing but others the first of the newest. */
  lemma CurrentByWords(subs: seq<RawSubscription>)
    requires subs != []
    ensures var k := CurrentIndex(subs);
            if Lists(subs, "active") then IsFirst(subs, "active", k)
            else if Lists(subs, "trialing") then IsFirst(subs, "trialing", k)
            else if Lists(subs, "past_due") then IsFirst(subs, "past_due", k)
            else if Lists(subs, "unpaid") then IsFirst(subs, "unpaid", k)
            else if Lists(subs, "paused") then IsFirst(subs, "paused", k)
            else if Lists(subs, "incomplete") then IsFirst(subs, "incomplete", k)
            else && k < |subs| && (forall j :: 0 <= j < |subs| ==> subs[j].created <= subs[k].created)
                 && forall j :: 0 <= j < k ==> subs[j].created < subs[k].created
  {
    if p: nat :| p < |PRIORITY| && Lists(subs, PRIORITY[p]) && forall q :: 0 <= q < p ==> !Lists(subs, PRIORITY[q]) {
      FirstOfPriority(subs, p);
      assert PRIORITY[0] == "active" && PRIORITY[1] == "trialing" && PRIORITY[2] == "past_due";
      assert PRIORITY[3] == "unpaid" && PRIORITY[4] == "paused" && PRIORITY[5] == "incomplete";
    } else {
      NonePrior(subs, |PRIORITY|);
      NewestOfTheRest(subs);
    }
  }

  lemma {:induction false} NonePrior(subs: seq<RawSubscription>, n: nat)
    requires n <= |PRIORITY|
    requires forall p: nat :: p < |PRIORITY| && Lists(subs, PRIORITY[p]) ==> exists q :: 0 <= q < p && Lists(subs, PRIORITY[q])
    ensures forall p :: 0 <= p < n ==> !Lists(subs, PRIORITY[p])
  {
    if n > 0 { NonePrior(subs, n - 1); }
  }

  /** A customer who is paying through any subscription is mirrored on one that pays. */
  lemma CurrentPaysIfAnyPays(subs: seq<RawSubscription>)
    requires subs != []
    ensures CurrentIndex(subs) < |subs|
    ensures subs[CurrentIndex(subs)].status in {"active", "trialing", "past_due", "unpaid"}
            <==> exists j :: 0 <= j < |subs| && subs[j].status in {"active", "trialing", "past_due", "unpaid"}
  {
    CurrentByWords(subs);
  }

  /** Nothing that has ended is mirrored while something else is left. */
  lemma CurrentIsLiveIfAnyIsLive(subs: seq<RawSubscription>)
    requires subs != []
    ensures CurrentIndex(subs) < |subs|
    ensures StatusOf(subs[CurrentIndex(subs)].status).NoSubscription?
            <==> forall j :: 0 <= j < |subs| ==> StatusOf(subs[j].status).NoSubscription?
  {
    CurrentByWords(subs);
  }
}
