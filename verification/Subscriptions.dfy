/** The write path: app/services/subscriptions.py.

    `Sync` says on plain tables what one sync does. `SyncSubscriptionFromStripe` does it through a
    session and a row object whose columns are assigned one by one.
 */
module Subscriptions {
  import opened Models
  import opened Sessions
  import Billing
  import Plans

  type Catalog = map<string, Plans.Slot>

  const ORPHANED_AT := "orphaned_at"
  const PLAIN_SYNC := "stripe.sync"

  /** Whatever Stripe would answer if asked now. */
  datatype Stripe = Stripe(
    subs: map<string, seq<Billing.RawSubscription>>,
    users: map<string, string>,
    metadata: Billing.Metadata)
  {
    function Fetch(customer: string): Option<RemoteSubscription> {
      if customer in subs then Billing.FetchCurrent(subs[customer], metadata) else None
    }

    /** The user id stamped on the customer; an empty one counts as none. */
    function UserOf(customer: string): Option<string> {
      if customer in users && users[customer] != "" then Some(users[customer]) else None
    }
  }

  // ---- tier resolution and projection ----

  function TierNamed(value: string): Option<Tier> {
    if value == "free" then Some(Tier.Free)
    else if value == "plus" then Some(Plus)
    else if value == "pro" then Some(Pro)
    else if value == "enterprise" then Some(Enterprise)
    else None
  }

  function ResolveTier(catalog: Catalog, price: Option<RemotePrice>): (Option<Tier>, Option<Interval>) {
    match price
    case None => (None, None)
    case Some(p) =>
      if p.id in catalog then (Some(catalog[p.id].0), Some(catalog[p.id].1))
      else (if p.tier.Some? then TierNamed(p.tier.value) else None, p.interval)
  }

  predicate BelongsToThisService(catalog: Catalog, remote: Option<RemoteSubscription>) {
    remote.Some? && ResolveTier(catalog, remote.value.price).0.Some?
  }

  predicate HasMetadata(remote: RemoteSubscription, key: string) {
    key in remote.metadata && remote.metadata[key] != ""
  }

  function Project(catalog: Catalog, remote: Option<RemoteSubscription>): MirroredState {
    if remote.None? || remote.value.status.NoSubscription? then NO_SUBSCRIPTION
    else
      var r := remote.value;
      var (tier, interval) := ResolveTier(catalog, r.price);
      MirroredState(
        if r.status.GrantsAccess() && tier.Some? then tier.value else Tier.Free,
        r.status,
        Some(r.id),
        if r.price.Some? then Some(r.price.value.id) else None,
        interval, r.periodStart, r.periodEnd, r.cancelAtPeriodEnd, r.trialEnd, r.discount)
  }

  function NameOf(t: Tier): string {
    match t
    case Free => "free"
    case Plus => "plus"
    case Pro => "pro"
    case Enterprise => "enterprise"
  }

  /** What a listed price buys: the catalog's tier, else the one stamped on the price itself. */
  predicate PriceGives(catalog: Catalog, price: Billing.RawPrice, t: Tier) {
    match price
    case Absent => false
    case BareId(id) => id != "" && id in catalog && catalog[id].0 == t
    case Expanded(id, _, tier) => if id in catalog then catalog[id].0 == t else tier == NameOf(t)
  }

  /** How often it is charged: by the catalog, else by what the price itself says. */
  predicate Recurs(catalog: Catalog, price: Billing.RawPrice, i: Interval) {
    match price
    case Absent => false
    case BareId(id) => id != "" && id in catalog && catalog[id].1 == i
    case Expanded(id, interval, _) =>
      if id in catalog then catalog[id].1 == i else interval == if i.Monthly? then "month" else "year"
  }

  predicate IsPrice(price: Billing.RawPrice, id: string) {
    (price == Billing.BareId(id) && id != "") || (price.Expanded? && price.id == id)
  }

  /** The instant of a Unix time, which is none when it is zero. */
  predicate IsTime(at: Option<Instant>, seconds: Option<int>) {
    && (at.Some? <==> seconds.Some? && seconds.value != 0)
    && (at.Some? ==> at.value == seconds.value * 1_000_000)
  }

  /** From Stripe's payload to the mirror: a paid tier is shown if and only if the status is one of the four
      that pay and the first item's price buys that tier. */
  lemma PaidTierExactly(catalog: Catalog, raw: Billing.RawSubscription, store: Billing.Metadata, t: Tier)
    requires t != Tier.Free
    ensures Project(catalog, Some(Billing.Parse(raw, store))).tier == t
            <==> raw.status in {"active", "trialing", "past_due", "unpaid"} && raw.items != []
                 && PriceGives(catalog, raw.items[0].price, t)
  {
  }

  /** The mirrored status of each of Stripe's words; any other word, and what has ended, is no subscription,
      of which nothing is mirrored. */
  lemma StatusExactly(catalog: Catalog, raw: Billing.RawSubscription, store: Billing.Metadata)
    ensures var m := Project(catalog, Some(Billing.Parse(raw, store)));
            && (m.status.Active? <==> raw.status == "active")
            && (m.status.Trialing? <==> raw.status == "trialing")
            && (m.status.PastDue? <==> raw.status in {"past_due", "unpaid"})
            && (m.status.Paused? <==> raw.status == "paused")
            && (m.status.Incomplete? <==> raw.status == "incomplete")
            && (m.status.NoSubscription? ==>
                  && m.tier == Tier.Free && m.subscriptionId.None? && m.priceId.None? && m.interval.None?
                  && m.periodStart.None? && m.periodEnd.None? && !m.cancelAtPeriodEnd
                  && m.trialEnd.None? && m.discount.None?)
  {
  }

  /** And the other columns, for a subscription that is one. The period is the subscription's own when it
      states both ends, else its first item's. */
  lemma MirrorsThePayload(catalog: Catalog, raw: Billing.RawSubscription, store: Billing.Metadata, i: Interval, price: string)
    requires raw.status in {"active", "trialing", "past_due", "unpaid", "paused", "incomplete"}
    ensures var m := Project(catalog, Some(Billing.Parse(raw, store)));
            var own := raw.periodStart.Some? && raw.periodEnd.Some?;
            && m.subscriptionId == Some(raw.id)
            && m.cancelAtPeriodEnd == raw.cancelAtPeriodEnd && m.discount == raw.discount
            && IsTime(m.trialEnd, raw.trialEnd)
            && (own ==> IsTime(m.periodStart, raw.periodStart) && IsTime(m.periodEnd, raw.periodEnd))
            && (!own && raw.items != [] ==>
                  IsTime(m.periodStart, raw.items[0].periodStart) && IsTime(m.periodEnd, raw.items[0].periodEnd))
            && (!own && raw.items == [] ==> m.periodStart.None? && m.periodEnd.None?)
            && (m.priceId == Some(price) <==> raw.items != [] && IsPrice(raw.items[0].price, price))
            && (m.interval == Some(i) <==> raw.items != [] && Recurs(catalog, raw.items[0].price, i))
  {
  }

  /** A subscription is ours if and only if its first item's price buys a tier, whatever its status. */
  lemma BelongsExactly(catalog: Catalog, raw: Billing.RawSubscription, store: Billing.Metadata)
    ensures BelongsToThisService(catalog, Some(Billing.Parse(raw, store)))
            <==> raw.items != [] && exists t :: PriceGives(catalog, raw.items[0].price, t)
    ensures !BelongsToThisService(catalog, None)
  {
    if raw.items != [] && BelongsToThisService(catalog, Some(Billing.Parse(raw, store))) {
      assert PriceGives(catalog, raw.items[0].price, ResolveTier(catalog, Billing.Price(raw.items[0].price)).0.value);
    }
  }

  // ---- the row ----

  /** The row after a sync wrote `state` into it. The start of the dunning window is the one field
      that depends on what the row said before. */
  function Written(row: Row, state: MirroredState, now: Instant): Row {
    row.(mirror := state,
         pastDueSince :=
           if !state.status.PastDue? then None
           else if row.pastDueSince.None? then Some(now)
           else row.pastDueSince)
  }

  datatype Fingerprint = Fingerprint(
    tier: Tier, status: Status, priceId: Option<string>,
    periodStart: Option<Instant>, periodEnd: Option<Instant>, cancelAtPeriodEnd: bool,
    trialEnd: Option<Instant>, pastDueSince: Option<Instant>, discount: Option<Discount>)

  function FingerprintOf(row: Row): Fingerprint {
    var m := row.mirror;
    Fingerprint(m.tier, m.status, m.priceId, m.periodStart, m.periodEnd, m.cancelAtPeriodEnd,
                m.trialEnd, row.pastDueSince, m.discount)
  }

  /** A row loaded from the table, as the object the write path assigns to. */
  class SubscriptionRow {
    const userId: string
    var customerId: Option<string>
    var tier: Tier
    var status: Status
    var subscriptionId: Option<string>
    var priceId: Option<string>
    var interval: Option<Interval>
    var periodStart: Option<Instant>
    var periodEnd: Option<Instant>
    var cancelAtPeriodEnd: bool
    var trialEnd: Option<Instant>
    var discount: Option<Discount>
    var pastDueSince: Option<Instant>
    var disputedAt: Option<Instant>

    function Value(): Row
      reads this
    {
      Row(userId, customerId,
          MirroredState(tier, status, subscriptionId, priceId, interval, periodStart, periodEnd,
                        cancelAtPeriodEnd, trialEnd, discount),
          pastDueSince, disputedAt)
    }

    constructor (row: Row)
      ensures Value() == row
    {
      userId, customerId, pastDueSince, disputedAt :=
        row.userId, row.customerId, row.pastDueSince, row.disputedAt;
      var m := row.mirror;
      tier, status, subscriptionId, priceId, interval :=
        m.tier, m.status, m.subscriptionId, m.priceId, m.interval;
      periodStart, periodEnd, cancelAtPeriodEnd, trialEnd, discount :=
        m.periodStart, m.periodEnd, m.cancelAtPeriodEnd, m.trialEnd, m.discount;
    }

    method Write(state: MirroredState, now: Instant)
      modifies this
      ensures Value() == Written(old(Value()), state, now)
    {
      if state.status == PastDue {
        if pastDueSince == None {
          pastDueSince := Some(now);
        }
      } else {
        pastDueSince := None;
      }
      tier := state.tier;
      status := state.status;
      subscriptionId := state.subscriptionId;
      priceId := state.priceId;
      interval := state.interval;
      periodStart := state.periodStart;
      periodEnd := state.periodEnd;
      cancelAtPeriodEnd := state.cancelAtPeriodEnd;
      trialEnd := state.trialEnd;
      discount := state.discount;
    }
  }

  // ---- the table ----

  datatype By = ByUser(id: string) | ByCustomer(id: string)

  predicate Matches(row: Row, key: By) {
    match key
    case ByUser(u) => row.userId == u
    case ByCustomer(c) => row.customerId == Some(c)
  }

  /** The position of the row a lookup finds. */
  function Find(rows: seq<Row>, key: By): (found: Option<nat>)
    ensures found.Some? ==> found.value < |rows| && Matches(rows[found.value], key)
    ensures found.None? ==> forall i :: 0 <= i < |rows| ==> !Matches(rows[i], key)
  {
    if rows == [] then None
    else if Matches(rows[|rows| - 1], key) then Some(|rows| - 1)
    else Find(rows[..|rows| - 1], key)
  }

  /** The unique constraints of the subscriptions table. */
  predicate UniqueRows(rows: seq<Row>) {
    forall i, j :: 0 <= i < j < |rows| ==> !Conflict(rows[i], rows[j])
  }

  predicate Conflict(a: Row, b: Row) {
    || a.userId == b.userId
    || (a.customerId.Some? && a.customerId == b.customerId)
    || (a.mirror.subscriptionId.Some? && a.mirror.subscriptionId == b.mirror.subscriptionId)
  }

  /** With the unique constraints in force, a lookup finds the one row that matches. */
  lemma FindIs(rows: seq<Row>, key: By, i: nat)
    requires UniqueRows(rows) && i < |rows| && Matches(rows[i], key)
    ensures Find(rows, key) == Some(i)
  {
    var f := Find(rows, key).value;
    assert Conflict(rows[f], rows[i]) && Conflict(rows[i], rows[f]);
  }

  /** Where a customer with no row gets one: the row that carries the customer by now, else the
      user's row, else a new row on free. The customer id is written on it in every case. */
  function Claimed(rows: seq<Row>, customer: string, userId: string): (r: (seq<Row>, nat))
    ensures r.1 < |r.0| && r.0[r.1].customerId == Some(customer)
  {
    match Find(rows, ByCustomer(customer))
    case Some(i) => (rows, i)
    case None =>
      match Find(rows, ByUser(userId))
      case Some(i) => (rows[i := rows[i].(customerId := Some(customer))], i)
      case None => (rows + [FreshRow(userId).(customerId := Some(customer))], |rows|)
  }

  datatype SyncResult =
    | Ignored
    | IntegrityError
    | Synced(db: Db, index: nat, marks: set<string>)

  function AuditOf(before: Row, after: Row, reason: string, event: Option<string>, now: Instant): Audit {
    Audit(after.userId, Some(before.mirror.tier), Some(after.mirror.tier),
          Some(before.mirror.status), Some(after.mirror.status), reason, event, now)
  }

  predicate Transition(before: Row, after: Row) {
    before.mirror.tier != after.mirror.tier || before.mirror.status != after.mirror.status
  }

  /** The second half of a sync: row `i` of `rows` is in hand and Stripe has answered. */
  function WriteBack(db: Db, rows: seq<Row>, i: nat, state: MirroredState, event: Option<string>,
                     reason: string, now: Instant): SyncResult
    requires i < |rows|
  {
    var before, after := rows[i], Written(rows[i], state, now);
    var written := rows[i := after];
    if !UniqueRows(written) then IntegrityError
    else
      Synced(
        db.(rows := written,
            audits := if Transition(before, after) || reason != PLAIN_SYNC
                      then db.audits + [AuditOf(before, after, reason, event, now)] else db.audits),
        i,
        if FingerprintOf(after) != FingerprintOf(before) then {after.userId} else {})
  }

  // ---- a write decided on a row read without a lock ----

  /** A column as it is flushed: only where the new value differs from the one that was loaded. */
  function Kept<T(==)>(seen: T, after: T, current: T): T {
    if after == seen then current else after
  }

  function KeptMirror(seen: MirroredState, after: MirroredState, current: MirroredState): MirroredState {
    MirroredState(
      Kept(seen.tier, after.tier, current.tier),
      Kept(seen.status, after.status, current.status),
      Kept(seen.subscriptionId, after.subscriptionId, current.subscriptionId),
      Kept(seen.priceId, after.priceId, current.priceId),
      Kept(seen.interval, after.interval, current.interval),
      Kept(seen.periodStart, after.periodStart, current.periodStart),
      Kept(seen.periodEnd, after.periodEnd, current.periodEnd),
      Kept(seen.cancelAtPeriodEnd, after.cancelAtPeriodEnd, current.cancelAtPeriodEnd),
      Kept(seen.trialEnd, after.trialEnd, current.trialEnd),
      Kept(seen.discount, after.discount, current.discount))
  }

  /** What is left in the table when `after` was decided on `seen` and lands on `current`. */
  function Flushed(seen: Row, after: Row, current: Row): Row {
    Row(current.userId,
        Kept(seen.customerId, after.customerId, current.customerId),
        KeptMirror(seen.mirror, after.mirror, current.mirror),
        Kept(seen.pastDueSince, after.pastDueSince, current.pastDueSince),
        Kept(seen.disputedAt, after.disputedAt, current.disputedAt))
  }

  /** What a first contact decides on the row it read. */
  function Contacted(seen: Row, customer: string, state: MirroredState, now: Instant): Row {
    Written(seen.(customerId := Some(customer)), state, now)
  }

  /** A first contact that read its user's row without a lock: the entry, the window and the mark follow
      what it read, and the columns it changes land on whatever the row says by then. */
  function Contact(db: Db, seen: Row, customer: string, state: MirroredState, event: Option<string>,
                   reason: string, now: Instant): SyncResult {
    match Find(db.rows, ByUser(seen.userId))
    case None => Ignored
    case Some(i) =>
      var after := Contacted(seen, customer, state, now);
      var written := db.rows[i := Flushed(seen, after, db.rows[i])];
      if !UniqueRows(written) then IntegrityError
      else
        Synced(
          db.(rows := written,
              audits := if Transition(seen, after) || reason != PLAIN_SYNC
                        then db.audits + [AuditOf(seen, after, reason, event, now)] else db.audits),
          i,
          if FingerprintOf(after) != FingerprintOf(seen) then {seen.userId} else {})
  }

  /** Not overtaken, it is the sync's own second half on the claimed row. */
  lemma ContactInStep(db: Db, customer: string, i: nat, state: MirroredState, event: Option<string>, reason: string, now: Instant)
    requires UniqueRows(db.rows) && i < |db.rows| && Find(db.rows, ByCustomer(customer)).None?
    ensures var (rows, k) := Claimed(db.rows, customer, db.rows[i].userId);
            Contact(db, db.rows[i], customer, state, event, reason, now) == WriteBack(db, rows, k, state, event, reason, now)
  {
    FindIs(db.rows, ByUser(db.rows[i].userId), i);
    var rows, k := Claimed(db.rows, customer, db.rows[i].userId).0, Claimed(db.rows, customer, db.rows[i].userId).1;
    var after := Contacted(db.rows[i], customer, state, now);
    assert k == i && rows[k] == db.rows[i].(customerId := Some(customer));
    assert Flushed(db.rows[i], after, db.rows[i]) == after == Written(rows[k], state, now);
    assert db.rows[i := after] == rows[k := after];
  }

  /** Every column it left alone says what it read. */
  predicate LeftAloneAsRead(seen: MirroredState, after: MirroredState, current: MirroredState) {
    && (after.tier == seen.tier ==> current.tier == seen.tier)
    && (after.status == seen.status ==> current.status == seen.status)
    && (after.subscriptionId == seen.subscriptionId ==> current.subscriptionId == seen.subscriptionId)
    && (after.priceId == seen.priceId ==> current.priceId == seen.priceId)
    && (after.interval == seen.interval ==> current.interval == seen.interval)
    && (after.periodStart == seen.periodStart ==> current.periodStart == seen.periodStart)
    && (after.periodEnd == seen.periodEnd ==> current.periodEnd == seen.periodEnd)
    && (after.cancelAtPeriodEnd == seen.cancelAtPeriodEnd ==> current.cancelAtPeriodEnd == seen.cancelAtPeriodEnd)
    && (after.trialEnd == seen.trialEnd ==> current.trialEnd == seen.trialEnd)
    && (after.discount == seen.discount ==> current.discount == seen.discount)
  }

  /** An overtaken first contact leaves the row saying what Stripe answered, exactly if the columns it had
      no change for still say what it read; otherwise the row is a mixture of two answers. */
  lemma ContactMirrorsIff(seen: MirroredState, after: MirroredState, current: MirroredState)
    ensures KeptMirror(seen, after, current) == after <==> LeftAloneAsRead(seen, after, current)
  {
  }

  /** The mixture can be a paid tier on a status that pays for nothing: read on free, overtaken by a sync
      that saw an active Pro, and deciding on an answer that was incomplete. */
  lemma AMixedRowIsNotOk()
    ensures var active := MirroredState(Pro, Active, Some("s"), Some("p"), Some(Monthly), None, None, false, None, None);
            var incomplete := active.(tier := Tier.Free, status := Incomplete);
            && MirrorOk(NO_SUBSCRIPTION) && MirrorOk(active) && MirrorOk(incomplete)
            && !MirrorOk(KeptMirror(NO_SUBSCRIPTION, incomplete, active))
  {
  }

  /** Whose row a customer without one belongs on, or None when it is not ours to record. */
  function FirstContactUser(catalog: Catalog, stripe: Stripe, customer: string): Option<string> {
    var remote := stripe.Fetch(customer);
    if !BelongsToThisService(catalog, remote) then None
    else if stripe.UserOf(customer).None? then None
    else if HasMetadata(remote.value, ORPHANED_AT) then None
    else stripe.UserOf(customer)
  }

  /** One whole sync, with nothing else writing meanwhile. */
  function Sync(db: Db, catalog: Catalog, stripe: Stripe, customer: string,
                event: Option<string>, reason: string, now: Instant): SyncResult {
    var state := Project(catalog, stripe.Fetch(customer));
    match Find(db.rows, ByCustomer(customer))
    case Some(i) => WriteBack(db, db.rows, i, state, event, reason, now)
    case None =>
      match FirstContactUser(catalog, stripe, customer)
      case None => Ignored
      case Some(user) =>
        var (rows, i) := Claimed(db.rows, customer, user);
        WriteBack(db, rows, i, state, event, reason, now)
  }

  /** Row `i` of `rows` is in hand: writes Stripe's answer into it, audits, flushes and marks. */
  method WriteRow(session: Session, rows: seq<Row>, i: nat, state: MirroredState, event: Option<string>,
                  reason: string, now: Instant)
    returns (raised: bool)
    requires session.Valid() && i < |rows|
    modifies session`working, session`marks
    ensures session.Valid()
    ensures var r := WriteBack(old(session.working), rows, i, state, event, reason, now);
            raised == r.IntegrityError?
            && (!raised ==> session.working == r.db && session.marks == old(session.marks) + r.marks)
  {
    var sub := new SubscriptionRow(rows[i]);
    var before := sub.Value();
    sub.Write(state, now);
    var after := sub.Value();
    var written := rows[i := after];
    if !UniqueRows(written) {
      return true;
    }
    if Transition(before, after) || reason != PLAIN_SYNC {
      var entry := AuditOf(before, after, reason, event, now);
      session.working := session.working.(audits := session.working.audits + [entry]);
    }
    session.working := session.working.(rows := written);
    if FingerprintOf(after) != FingerprintOf(before) {
      MarkEntitlementsStale(session, after.userId);
    }
    return false;
  }

  /** The sync itself. Raising leaves the caller to roll back, so nothing is said of `working`. */
  method SyncSubscriptionFromStripe(session: Session, catalog: Catalog, stripe: Stripe, customer: string,
                                    event: Option<string>, reason: string, now: Instant)
    returns (raised: bool)
    requires session.Valid()
    modifies session`working, session`marks
    ensures session.Valid()
    ensures match Sync(old(session.working), catalog, stripe, customer, event, reason, now)
            case Ignored => !raised && unchanged(session)
            case IntegrityError => raised
            case Synced(db, _, marks) =>
              !raised && session.working == db && session.marks == old(session.marks) + marks
  {
    var rows := session.working.rows;
    var found := Find(rows, ByCustomer(customer));
    var remote := stripe.Fetch(customer);
    var i: nat;
    if found.None? {
      if !BelongsToThisService(catalog, remote) {
        return false;
      }
      var user := stripe.UserOf(customer);
      if user.None? {
        return false;
      }
      if HasMetadata(remote.value, ORPHANED_AT) {
        return false;
      }
      var claimed := Claimed(rows, customer, user.value);
      rows, i := claimed.0, claimed.1;
    } else {
      i := found.value;
    }
    raised := WriteRow(session, rows, i, Project(catalog, remote), event, reason, now);
  }

  /** A chargeback is stamped on the row and audited; no entitlement follows from it. */
  function Disputed(db: Db, customer: string, event: Option<string>, now: Instant): Db {
    match Find(db.rows, ByCustomer(customer))
    case None => db
    case Some(i) =>
      var row := db.rows[i].(disputedAt := Some(now));
      db.(rows := db.rows[i := row],
          audits := db.audits + [AuditOf(row, row, "charge.dispute.created", event, now)])
  }

  /** The same from the row as it was read, which is not locked: the stamp lands on whatever the user's
      row says by then, and the entry says what was read. */
  function DisputedAs(db: Db, seen: Row, event: Option<string>, now: Instant): Db {
    match Find(db.rows, ByUser(seen.userId))
    case None => db
    case Some(i) =>
      db.(rows := db.rows[i := db.rows[i].(disputedAt := Some(now))],
          audits := db.audits + [AuditOf(seen, seen, "charge.dispute.created", event, now)])
  }

  /** Read and written at one instant they are the same. */
  lemma DisputedAsRead(db: Db, customer: string, i: nat, event: Option<string>, now: Instant)
    requires UniqueRows(db.rows) && i < |db.rows| && db.rows[i].customerId == Some(customer)
    ensures DisputedAs(db, db.rows[i], event, now) == Disputed(db, customer, event, now)
  {
    FindIs(db.rows, ByCustomer(customer), i);
    FindIs(db.rows, ByUser(db.rows[i].userId), i);
  }

  method MarkDisputed(session: Session, customer: string, event: Option<string>, now: Instant)
    requires session.Valid()
    modifies session`working
    ensures session.Valid() && session.working == Disputed(old(session.working), customer, event, now)
  {
    var found := Find(session.working.rows, ByCustomer(customer));
    if found.None? {
      return;
    }
    var sub := new SubscriptionRow(session.working.rows[found.value]);
    sub.disputedAt := Some(now);
    var row := sub.Value();
    session.working := session.working.(
      rows := session.working.rows[found.value := row],
      audits := session.working.audits + [AuditOf(row, row, "charge.dispute.created", event, now)]);
  }

  // ---- what the tables always satisfy ----

  /** The mirrored columns agree with each other. */
  predicate MirrorOk(m: MirroredState) {
    && (m.tier != Tier.Free ==> m.status.GrantsAccess())
    && (m.status.NoSubscription? <==> m.subscriptionId.None?)
    && (m.status.NoSubscription? ==> m == NO_SUBSCRIPTION)
  }

  predicate RowOk(row: Row) {
    && MirrorOk(row.mirror)
    && (row.mirror.status.PastDue? ==> row.pastDueSince.Some?)
    && (row.mirror.subscriptionId.Some? ==> row.customerId.Some?)
  }

  /** A start of the dunning window means the row is past_due. Unlike the rest this can be broken. */
  predicate WindowOk(row: Row) {
    row.pastDueSince.Some? ==> row.mirror.status.PastDue?
  }

  ghost predicate TableOk(rows: seq<Row>) {
    UniqueRows(rows) && forall i :: 0 <= i < |rows| ==> RowOk(rows[i])
  }

  ghost predicate WindowsOk(rows: seq<Row>) {
    forall i :: 0 <= i < |rows| ==> WindowOk(rows[i])
  }

  /** Setting a customer id nobody carries keeps the table valid, whoever's row it lands on. */
  lemma ClaimedKeepsTable(rows: seq<Row>, customer: string, userId: string)
    requires UniqueRows(rows)
    ensures UniqueRows(Claimed(rows, customer, userId).0)
    ensures TableOk(rows) ==> TableOk(Claimed(rows, customer, userId).0)
  {
    var (after, k) := Claimed(rows, customer, userId);
    forall i, j | 0 <= i < j < |after| ensures !Conflict(after[i], after[j]) {
      if j < |rows| { assert !Conflict(rows[i], rows[j]); }
    }
  }

  lemma WrittenKeepsRow(catalog: Catalog, row: Row, remote: Option<RemoteSubscription>, now: Instant)
    requires row.customerId.Some?
    ensures RowOk(Written(row, Project(catalog, remote), now)) && WindowOk(Written(row, Project(catalog, remote), now))
    ensures Written(row, Project(catalog, remote), now).mirror == Project(catalog, remote)
  {
  }

  /** `rows` is the table with row `i` ready to be written: one of its rows, whose customer id may have
      just been set, or a new one on free at the end. */
  ghost predicate InHand(before: seq<Row>, rows: seq<Row>, i: nat) {
    && i < |rows| && |before| <= |rows| <= |before| + 1
    && (forall j :: 0 <= j < |rows| && j != i ==> j < |before| && rows[j] == before[j])
    && rows[i] == (if i < |before| then before[i] else FreshRow(rows[i].userId)).(customerId := rows[i].customerId)
  }

  /** Which row a customer is claimed on: the one that carries it, and then nothing is written; else the
      user's, old or new. Only that row changes, and only its customer id. */
  lemma ClaimedIsInHand(rows: seq<Row>, customer: string, userId: string)
    ensures var (after, i) := Claimed(rows, customer, userId);
            && InHand(rows, after, i) && after[i].customerId == Some(customer)
            && (if exists k :: 0 <= k < |rows| && rows[k].customerId == Some(customer) then after == rows
                else after[i].userId == userId
                     && (|after| == |rows| <==> exists k :: 0 <= k < |rows| && rows[k].userId == userId))
  {
    assert forall k :: 0 <= k < |rows| ==> (Matches(rows[k], ByCustomer(customer)) <==> rows[k].customerId == Some(customer));
    assert forall k :: 0 <= k < |rows| ==> (Matches(rows[k], ByUser(userId)) <==> rows[k].userId == userId);
  }

  /** A sync is a write of what Stripe says into a row in hand, of this customer's user if it had none. */
  lemma SyncWritesBack(db: Db, catalog: Catalog, stripe: Stripe, customer: string, event: Option<string>,
                       reason: string, now: Instant)
    returns (rows: seq<Row>, i: nat)
    requires UniqueRows(db.rows) && !Sync(db, catalog, stripe, customer, event, reason, now).Ignored?
    ensures InHand(db.rows, rows, i) && rows[i].customerId == Some(customer) && UniqueRows(rows)
    ensures TableOk(db.rows) ==> TableOk(rows)
    ensures Sync(db, catalog, stripe, customer, event, reason, now)
            == WriteBack(db, rows, i, Project(catalog, stripe.Fetch(customer)), event, reason, now)
    ensures rows == db.rows || stripe.UserOf(customer) == Some(rows[i].userId)
  {
    match Find(db.rows, ByCustomer(customer)) {
      case Some(k) => rows, i := db.rows, k;
      case None =>
        var user := FirstContactUser(catalog, stripe, customer).value;
        ClaimedKeepsTable(db.rows, customer, user);
        ClaimedIsInHand(db.rows, customer, user);
        rows, i := Claimed(db.rows, customer, user).0, Claimed(db.rows, customer, user).1;
    }
  }

  /** Every sync leaves the unique columns unique and a valid table valid, and the customer's row saying
      what Stripe says, whatever it said before. */
  lemma SyncKeepsTable(db: Db, catalog: Catalog, stripe: Stripe, customer: string,
                       event: Option<string>, reason: string, now: Instant)
    requires UniqueRows(db.rows)
    ensures var r := Sync(db, catalog, stripe, customer, event, reason, now);
            r.Synced? ==>
              && UniqueRows(r.db.rows) && (TableOk(db.rows) ==> TableOk(r.db.rows))
              && r.index < |r.db.rows|
              && Find(r.db.rows, ByCustomer(customer)) == Some(r.index)
              && r.db.rows[r.index].mirror == Project(catalog, stripe.Fetch(customer))
              && r.db.events == db.events && r.db.grants == db.grants
  {
    var r := Sync(db, catalog, stripe, customer, event, reason, now);
    if r.Synced? {
      var rows, i := SyncWritesBack(db, catalog, stripe, customer, event, reason, now);
      WrittenKeepsRow(catalog, rows[i], stripe.Fetch(customer), now);
      FindIs(r.db.rows, ByCustomer(customer), i);
    }
  }

  // ---- a sync, from what Stripe lists to what the tables say ----

  /** The customer's current subscription, as Stripe lists it. */
  function CurrentOf(stripe: Stripe, customer: string): (raw: Option<Billing.RawSubscription>)
    ensures stripe.Fetch(customer) == if raw.None? then None else Some(Billing.Parse(raw.value, stripe.metadata))
    ensures raw.None? <==> customer !in stripe.subs || stripe.subs[customer] == []
  {
    if customer !in stripe.subs || stripe.subs[customer] == [] then None
    else
      Billing.CurrentInRange(Billing.Listed(stripe.subs[customer]));
      Some(Billing.Listed(stripe.subs[customer])[Billing.CurrentIndex(Billing.Listed(stripe.subs[customer]))])
  }

  /** What a customer sees of the row moved, so cached answers are dropped. */
  predicate Moved(before: Row, after: Row) {
    var b, a := before.mirror, after.mirror;
    || a.tier != b.tier || a.status != b.status || a.priceId != b.priceId
    || a.periodStart != b.periodStart || a.periodEnd != b.periodEnd || a.cancelAtPeriodEnd != b.cancelAtPeriodEnd
    || a.trialEnd != b.trialEnd || a.discount != b.discount || after.pastDueSince != before.pastDueSince
  }

  /** One entry, if tier or status moved or somebody asked for the sync, telling from what to what. */
  predicate AuditedOnce(audits: seq<Audit>, later: seq<Audit>, before: Row, after: Row, reason: string,
                        event: Option<string>, now: Instant) {
    if before.mirror.tier == after.mirror.tier && before.mirror.status == after.mirror.status && reason == "stripe.sync"
    then later == audits
    else
      && |later| == |audits| + 1 && later[..|audits|] == audits
      && var entry := later[|audits|];
         && entry.userId == before.userId && entry.reason == reason && entry.eventId == event && entry.createdAt == now
         && entry.fromTier == Some(before.mirror.tier) && entry.toTier == Some(after.mirror.tier)
         && entry.fromStatus == Some(before.mirror.status) && entry.toStatus == Some(after.mirror.status)
  }

  /** What a write of this state leaves of a row: its user, its customer and a dispute stay, the mirror is
      what Stripe says, and a dunning window is started, kept or closed. */
  predicate WrittenOn(row: Row, before: Row, state: MirroredState, now: Instant) {
    && row.userId == before.userId && row.customerId == before.customerId && row.disputedAt == before.disputedAt
    && row.mirror == state
    && row.pastDueSince == if state.status != PastDue then None
                           else Some(before.pastDueSince.GetOr(now))
  }

  ghost predicate OnlyRowMoved(rows: seq<Row>, later: seq<Row>, k: nat) {
    && k < |later| && |rows| <= |later| <= |rows| + 1
    && forall j :: 0 <= j < |later| && j != k ==> j < |rows| && later[j] == rows[j]
  }

  /** Nobody else is on this subscription. */
  predicate SubscriptionFree(rows: seq<Row>, k: nat, id: Option<string>) {
    id.None? || forall j :: 0 <= j < |rows| && j != k ==> rows[j].mirror.subscriptionId != id
  }

  /** The second half of a sync, exactly: refused if and only if another row is on the same subscription;
      else this row says what Stripe says, no other row moves, and audit and marks follow from the move. */
  lemma WriteBackExactly(db: Db, rows: seq<Row>, i: nat, state: MirroredState, event: Option<string>, reason: string, now: Instant)
    requires i < |rows| && UniqueRows(rows)
    ensures var r := WriteBack(db, rows, i, state, event, reason, now);
            && !r.Ignored?
            && (r.Synced? <==> SubscriptionFree(rows, i, state.subscriptionId))
            && (r.Synced? ==>
                  && r.index == i && |r.db.rows| == |rows| && OnlyRowMoved(rows, r.db.rows, i) && UniqueRows(r.db.rows)
                  && WrittenOn(r.db.rows[i], rows[i], state, now)
                  && AuditedOnce(db.audits, r.db.audits, rows[i], r.db.rows[i], reason, event, now)
                  && r.marks == (if Moved(rows[i], r.db.rows[i]) then {rows[i].userId} else {})
                  && r.db.grants == db.grants && r.db.events == db.events)
  {
    var written := rows[i := Written(rows[i], state, now)];
    if SubscriptionFree(rows, i, state.subscriptionId) {
      forall j, k | 0 <= j < k < |written| ensures !Conflict(written[j], written[k]) {
        assert !Conflict(rows[j], rows[k]);
      }
    } else {
      var j :| 0 <= j < |rows| && j != i && rows[j].mirror.subscriptionId == state.subscriptionId;
      assert Conflict(written[j], written[i]) && Conflict(written[i], written[j]);
    }
  }

  /** A sync of a customer with a row, exactly. */
  lemma SyncExactly(db: Db, catalog: Catalog, stripe: Stripe, customer: string, k: nat, event: Option<string>,
                    reason: string, now: Instant)
    requires UniqueRows(db.rows) && k < |db.rows| && db.rows[k].customerId == Some(customer)
    ensures var r, state := Sync(db, catalog, stripe, customer, event, reason, now), Project(catalog, stripe.Fetch(customer));
            && !r.Ignored?
            && (r.Synced? <==> SubscriptionFree(db.rows, k, state.subscriptionId))
            && (r.Synced? ==>
                  && |r.db.rows| == |db.rows| && OnlyRowMoved(db.rows, r.db.rows, k) && UniqueRows(r.db.rows)
                  && WrittenOn(r.db.rows[k], db.rows[k], state, now)
                  && AuditedOnce(db.audits, r.db.audits, db.rows[k], r.db.rows[k], reason, event, now)
                  && r.marks == (if Moved(db.rows[k], r.db.rows[k]) then {db.rows[k].userId} else {})
                  && r.db.grants == db.grants && r.db.events == db.events)
  {
    FindIs(db.rows, ByCustomer(customer), k);
    WriteBackExactly(db, db.rows, k, Project(catalog, stripe.Fetch(customer)), event, reason, now);
  }

  /** The orphan mark is on the subscription. */
  predicate MarkedOrphaned(stripe: Stripe, id: string) {
    id in stripe.metadata && "orphaned_at" in stripe.metadata[id] && stripe.metadata[id]["orphaned_at"] != ""
  }

  /** Whether a customer without a row is recorded: something is listed for it, the current subscription's
      price buys a tier, a user is stamped on the customer, and no orphan mark on the subscription. */
  ghost predicate ToBeRecorded(catalog: Catalog, stripe: Stripe, customer: string)
    ensures ToBeRecorded(catalog, stripe, customer) ==> customer in stripe.users
  {
    var raw := CurrentOf(stripe, customer);
    && raw.Some? && raw.value.items != [] && (exists t :: PriceGives(catalog, raw.value.items[0].price, t))
    && customer in stripe.users && stripe.users[customer] != ""
    && !MarkedOrphaned(stripe, raw.value.id)
  }

  lemma RecordedForExactly(catalog: Catalog, stripe: Stripe, customer: string)
    ensures FirstContactUser(catalog, stripe, customer)
            == if ToBeRecorded(catalog, stripe, customer) then Some(stripe.users[customer]) else None
  {
    var raw := CurrentOf(stripe, customer);
    if raw.Some? { BelongsExactly(catalog, raw.value, stripe.metadata); }
  }

  /** The row is its user's: the one there was, and nothing else of it moved but what a sync writes and the
      customer id; or a new one, of a user who had none. */
  ghost predicate RecordedOn(rows: seq<Row>, later: seq<Row>, i: nat, customer: string, user: string, state: MirroredState, now: Instant)
    requires i < |later|
  {
    && later[i].userId == user && later[i].customerId == Some(customer)
    && if exists k :: 0 <= k < |rows| && rows[k].userId == user
       then i < |rows| == |later| && WrittenOn(later[i], rows[i].(customerId := Some(customer)), state, now)
       else i == |rows| && WrittenOn(later[i], Row(user, Some(customer), NO_SUBSCRIPTION, None, None), state, now)
  }

  /** No other user is on this subscription. */
  predicate FreeFor(rows: seq<Row>, user: string, id: Option<string>) {
    id.None? || forall j :: 0 <= j < |rows| && rows[j].userId != user ==> rows[j].mirror.subscriptionId != id
  }

  lemma ClaimIsFree(rows: seq<Row>, customer: string, user: string, id: Option<string>)
    requires UniqueRows(rows) && forall k :: 0 <= k < |rows| ==> rows[k].customerId != Some(customer)
    ensures var (claimed, i) := Claimed(rows, customer, user); SubscriptionFree(claimed, i, id) <==> FreeFor(rows, user, id)
  {
    var (claimed, i) := Claimed(rows, customer, user);
    ClaimedKeepsTable(rows, customer, user);
    ClaimedIsInHand(rows, customer, user);
    assert forall j :: 0 <= j < |claimed| && j != i ==> !Conflict(claimed[j], claimed[i]) || !Conflict(claimed[i], claimed[j]);
    assert forall j :: 0 <= j < |claimed| && j != i ==> claimed[j] == rows[j] && rows[j].userId != user;
    assert i < |rows| ==> rows[i].userId == user;
    assert forall j :: 0 <= j < |rows| && j != i ==> rows[j] == claimed[j];
  }

  lemma ClaimIsRecordedOn(rows: seq<Row>, customer: string, user: string, later: seq<Row>, state: MirroredState, now: Instant)
    requires forall k :: 0 <= k < |rows| ==> rows[k].customerId != Some(customer)
    requires var (claimed, i) := Claimed(rows, customer, user);
             |later| == |claimed| && WrittenOn(later[i], claimed[i], state, now)
    ensures RecordedOn(rows, later, Claimed(rows, customer, user).1, customer, user, state, now)
  {
    ClaimedIsInHand(rows, customer, user);
    assert forall k :: 0 <= k < |rows| ==> (Matches(rows[k], ByUser(user)) <==> rows[k].userId == user);
  }

  /** A sync of a customer without a row is ignored, exactly unless it is to be recorded; and then it is on
      the stamped user's row, or on a new one, and says what Stripe says. */
  lemma FirstContactExactly(db: Db, catalog: Catalog, stripe: Stripe, customer: string, event: Option<string>,
                            reason: string, now: Instant)
    requires UniqueRows(db.rows) && forall k :: 0 <= k < |db.rows| ==> db.rows[k].customerId != Some(customer)
    ensures var r := Sync(db, catalog, stripe, customer, event, reason, now);
            && (r.Ignored? <==> !ToBeRecorded(catalog, stripe, customer))
            && (!r.Ignored? ==>
                  (r.Synced? <==> FreeFor(db.rows, stripe.users[customer], Project(catalog, stripe.Fetch(customer)).subscriptionId)))
            && (r.Synced? ==>
                  && OnlyRowMoved(db.rows, r.db.rows, r.index)
                  && RecordedOn(db.rows, r.db.rows, r.index, customer, stripe.users[customer],
                                Project(catalog, stripe.Fetch(customer)), now)
                  && r.db.grants == db.grants && r.db.events == db.events)
  {
    hide Project, WriteBack, Claimed, ToBeRecorded, AuditedOnce, Moved, SubscriptionFree, FreeFor, WrittenOn, RecordedOn, CurrentOf, FirstContactUser;
    assert forall k :: 0 <= k < |db.rows| ==> !Matches(db.rows[k], ByCustomer(customer));
    RecordedForExactly(catalog, stripe, customer);
    if ToBeRecorded(catalog, stripe, customer) {
      var user, state := stripe.users[customer], Project(catalog, stripe.Fetch(customer));
      ClaimedKeepsTable(db.rows, customer, user);
      ClaimedIsInHand(db.rows, customer, user);
      var (rows, i) := Claimed(db.rows, customer, user);
      WriteBackExactly(db, rows, i, state, event, reason, now);
      ClaimIsFree(db.rows, customer, user, state.subscriptionId);
      var r := WriteBack(db, rows, i, state, event, reason, now);
      if r.Synced? { ClaimIsRecordedOn(db.rows, customer, user, r.db.rows, state, now); }
    }
  }

  /** A dispute dates the customer's row and leaves one entry, in which nothing moves; the rest of the row,
      every other row, and the tables of a customer without one stay as they were. */
  lemma DisputedExactly(db: Db, customer: string, event: Option<string>, now: Instant)
    requires UniqueRows(db.rows)
    ensures var later := Disputed(db, customer, event, now);
            && later.grants == db.grants && later.events == db.events && |later.rows| == |db.rows|
            && (forall k :: 0 <= k < |db.rows| ==>
                  if db.rows[k].customerId == Some(customer)
                  then
                    && later.rows[k].disputedAt == Some(now)
                    && later.rows[k].(disputedAt := db.rows[k].disputedAt) == db.rows[k]
                    && AuditedOnce(db.audits, later.audits, db.rows[k], db.rows[k], "charge.dispute.created", event, now)
                  else later.rows[k] == db.rows[k])
            && ((forall k :: 0 <= k < |db.rows| ==> db.rows[k].customerId != Some(customer)) ==> later == db)
            && UniqueRows(later.rows)
  {
    var later := Disputed(db, customer, event, now);
    forall k | 0 <= k < |db.rows| && db.rows[k].customerId == Some(customer)
      ensures Find(db.rows, ByCustomer(customer)) == Some(k)
    {
      FindIs(db.rows, ByCustomer(customer), k);
    }
    forall i, j | 0 <= i < j < |later.rows| ensures !Conflict(later.rows[i], later.rows[j]) {
      assert !Conflict(db.rows[i], db.rows[j]);
    }
  }

  /** Writing back one row leaves alone every row it does not claim. */
  lemma WriteBackFrame(db: Db, rows: seq<Row>, i: nat, state: MirroredState, event: Option<string>,
                       reason: string, now: Instant, other: string)
    requires UniqueRows(db.rows) && InHand(db.rows, rows, i) && rows[i].customerId != Some(other)
    requires i < |db.rows| ==> db.rows[i].customerId != Some(other)
    ensures var r := WriteBack(db, rows, i, state, event, reason, now);
            r.Synced? ==> RowOf(r.db.rows, other) == RowOf(db.rows, other)
  {
    var r := WriteBack(db, rows, i, state, event, reason, now);
    if r.Synced? {
      var a, b := Find(db.rows, ByCustomer(other)), Find(r.db.rows, ByCustomer(other));
      if a.Some? {
        FindIs(r.db.rows, ByCustomer(other), a.value);
      }
    }
  }

  /** A sync of one customer leaves every other customer's row alone, provided the user it would
      claim a row for is nobody else's. */
  lemma SyncFrame(db: Db, catalog: Catalog, stripe: Stripe, customer: string, event: Option<string>,
                  reason: string, now: Instant, other: string)
    requires UniqueRows(db.rows) && other != customer
    requires forall i :: 0 <= i < |db.rows| && Matches(db.rows[i], ByCustomer(other))
                         ==> stripe.UserOf(customer) != Some(db.rows[i].userId)
    ensures var r := Sync(db, catalog, stripe, customer, event, reason, now);
            r.Synced? ==> RowOf(r.db.rows, other) == RowOf(db.rows, other)
  {
    if Sync(db, catalog, stripe, customer, event, reason, now).Synced? {
      var rows, i := SyncWritesBack(db, catalog, stripe, customer, event, reason, now);
      assert i < |db.rows| && rows != db.rows ==> !Matches(db.rows[i], ByCustomer(other));
      WriteBackFrame(db, rows, i, Project(catalog, stripe.Fetch(customer)), event, reason, now, other);
    }
  }

  /** The row of a customer. */
  function RowOf(rows: seq<Row>, customer: string): Option<Row> {
    match Find(rows, ByCustomer(customer))
    case Some(i) => Some(rows[i])
    case None => None
  }
}
