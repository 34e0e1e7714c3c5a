/** Leaving at the end of the paid period, and coming back: the second half of
    app/services/subscriptions.py.

    Neither writes a row of its own accord. Stripe is told, and the row then says what Stripe says.
 */
module Cancellation {
  import opened Models
  import opened Sessions
  import opened StripeAccount
  import opened Subscriptions
  import opened Writers
  import Billing

  datatype Outcome =
    | NotFound
    | Conflict
    | AsItWas
    | Asked(stripe: Stripe, synced: SyncResult)

  /** A row on a subscription, as the two requests tell. */
  predicate Subscribed(row: Row) {
    row.mirror.subscriptionId.Some? && row.mirror.subscriptionId.value != ""
  }

  /** Asks Stripe, then re-reads through the one sync path. */
  function Ask(db: Db, catalog: Catalog, stripe: Stripe, row: Row, value: bool, reason: string, now: Instant): Outcome
    requires row.mirror.subscriptionId.Some?
  {
    var after := SetCancelAtPeriodEnd(stripe, row.mirror.subscriptionId.value, value);
    Asked(after, Sync(db, catalog, after, row.customerId.GetOr(""), None, reason, now))
  }

  function Cancel(db: Db, catalog: Catalog, stripe: Stripe, userId: string, now: Instant): Outcome {
    match Find(db.rows, ByUser(userId))
    case None => NotFound
    case Some(i) =>
      var row := db.rows[i];
      if !Subscribed(row) then NotFound
      else if !row.mirror.status.GrantsAccess() then Conflict
      else if row.mirror.cancelAtPeriodEnd then AsItWas
      else Ask(db, catalog, stripe, row, true, "customer.cancel_at_period_end", now)
  }

  function Resume(db: Db, catalog: Catalog, stripe: Stripe, userId: string, now: Instant): Outcome {
    match Find(db.rows, ByUser(userId))
    case None => NotFound
    case Some(i) =>
      var row := db.rows[i];
      if !Subscribed(row) then NotFound
      else if !row.mirror.cancelAtPeriodEnd then AsItWas
      else Ask(db, catalog, stripe, row, false, "customer.resumed", now)
  }

  /** What Stripe and the tables hold after a request, when nothing fails on the way. */
  function Settled(db: Db, stripe: Stripe, o: Outcome): (Db, Stripe) {
    if !o.Asked? then (db, stripe) else (if o.synced.Synced? then o.synced.db else db, o.stripe)
  }

  /** The request: `resuming` tells which. Stripe refusing leaves everything as it was; the sync or the
      commit failing leaves the row as it was, for a webhook to bring up to date. */
  method Request(session: Session, account: Account, catalog: Catalog, userId: string, resuming: bool, now: Instant,
                 stripeFails: bool, syncRaises: bool, deletesFailing: set<string>)
    returns (ok: bool)
    requires session.Idle()
    modifies session, session.cache, account
    ensures session.Idle()
    ensures var db, stripe := old(session.committed), old(account.state);
            var o := if resuming then Resume(db, catalog, stripe, userId, now) else Cancel(db, catalog, stripe, userId, now);
            var fails := o.Asked? && (stripeFails || syncRaises || o.synced.IntegrityError?);
            && ok == (!o.NotFound? && !o.Conflict? && !fails)
            && account.state == (if o.Asked? && !stripeFails then o.stripe else stripe)
            && session.committed == (if fails then db else Settled(db, stripe, o).0)
            && session.cache.data
               == if !fails && o.Asked? && o.synced.Synced?
                  then old(session.cache.data) - EntitlementKeys(o.synced.marks - deletesFailing)
                  else old(session.cache.data)
  {
    var found := Find(session.working.rows, ByUser(userId));
    if found.None? {
      return false;
    }
    var row := session.working.rows[found.value];
    if !Subscribed(row) {
      return false;
    }
    if !resuming && !row.mirror.status.GrantsAccess() {
      return false;
    }
    if row.mirror.cancelAtPeriodEnd == !resuming {
      return true;
    }
    var raised := account.ScheduleCancel(row.mirror.subscriptionId.value, !resuming, stripeFails);
    if raised {
      return false;
    }
    if syncRaises {
      return false;
    }
    raised := SyncSubscriptionFromStripe(session, catalog, account.state, row.customerId.GetOr(""), None,
                                         if resuming then "customer.resumed" else "customer.cancel_at_period_end", now);
    if raised {
      session.Rollback();
      return false;
    }
    CommitAndInvalidate(session, deletesFailing);
    return true;
  }

  /** When either asks Stripe, and what it answers otherwise: there must be a row on a subscription; leaving
      takes one that pays; and nothing is asked for that the row shows already. */
  lemma RequestsExactly(db: Db, catalog: Catalog, stripe: Stripe, userId: string, k: nat, now: Instant)
    requires UniqueRows(db.rows) && k < |db.rows| && db.rows[k].userId == userId
    ensures var row := db.rows[k];
            var subscribed := row.mirror.subscriptionId.Some? && row.mirror.subscriptionId.value != "";
            var c, r := Cancel(db, catalog, stripe, userId, now), Resume(db, catalog, stripe, userId, now);
            && (c.NotFound? <==> !subscribed) && (r.NotFound? <==> !subscribed) && !r.Conflict?
            && (c.Conflict? <==> subscribed && row.mirror.status !in {Trialing, Active, PastDue})
            && (c.Asked? <==> subscribed && row.mirror.status in {Trialing, Active, PastDue} && !row.mirror.cancelAtPeriodEnd)
            && (r.Asked? <==> subscribed && row.mirror.cancelAtPeriodEnd)
            && (c.Asked? ==> c.stripe == SetCancelAtPeriodEnd(stripe, row.mirror.subscriptionId.value, true)
                             && c.synced == Sync(db, catalog, c.stripe, row.customerId.GetOr(""), None, "customer.cancel_at_period_end", now))
            && (r.Asked? ==> r.stripe == SetCancelAtPeriodEnd(stripe, row.mirror.subscriptionId.value, false)
                             && r.synced == Sync(db, catalog, r.stripe, row.customerId.GetOr(""), None, "customer.resumed", now))
  {
    FindIs(db.rows, ByUser(userId), k);
  }

  // ---- which subscription is current does not depend on the schedule ----

  lemma {:induction false} FirstWithIgnoresSchedule(subs: seq<Billing.RawSubscription>, id: string, v: bool, word: string, i: nat)
    requires i <= |subs|
    ensures Billing.FirstWith(Scheduled(subs, id, v), word, i) == Billing.FirstWith(subs, word, i)
    decreases |subs| - i
  {
    if i < |subs| { FirstWithIgnoresSchedule(subs, id, v, word, i + 1); }
  }

  lemma {:induction false} ByPriorityIgnoresSchedule(subs: seq<Billing.RawSubscription>, id: string, v: bool, p: nat)
    requires p <= |Billing.PRIORITY|
    ensures Billing.ByPriority(Scheduled(subs, id, v), p) == Billing.ByPriority(subs, p)
    decreases |Billing.PRIORITY| - p
  {
    if p < |Billing.PRIORITY| {
      FirstWithIgnoresSchedule(subs, id, v, Billing.PRIORITY[p], 0);
      ByPriorityIgnoresSchedule(subs, id, v, p + 1);
    }
  }

  lemma {:induction false} NewestIgnoresSchedule(subs: seq<Billing.RawSubscription>, id: string, v: bool, n: nat)
    requires 0 < n <= |subs|
    ensures Billing.Newest(Scheduled(subs, id, v), n) == Billing.Newest(subs, n)
  {
    if n > 1 { NewestIgnoresSchedule(subs, id, v, n - 1); }
  }

  lemma CurrentIgnoresSchedule(subs: seq<Billing.RawSubscription>, id: string, v: bool)
    requires subs != []
    ensures Scheduled(subs, id, v) != [] && Billing.CurrentIndex(Scheduled(subs, id, v)) == Billing.CurrentIndex(subs)
  {
    ByPriorityIgnoresSchedule(subs, id, v, 0);
    NewestIgnoresSchedule(subs, id, v, |subs|);
  }

  function Rescheduled(remote: Option<RemoteSubscription>, id: string, v: bool): Option<RemoteSubscription> {
    match remote
    case None => None
    case Some(r) => Some(if r.id == id then r.(cancelAtPeriodEnd := v) else r)
  }

  lemma FetchCurrentAfterSchedule(subs: seq<Billing.RawSubscription>, store: Billing.Metadata, id: string, v: bool)
    ensures Billing.FetchCurrent(Scheduled(subs, id, v), store) == Rescheduled(Billing.FetchCurrent(subs, store), id, v)
  {
    if subs != [] {
      var listed, after := Billing.Listed(subs), Scheduled(subs, id, v);
      assert Scheduled(listed, id, v) == Billing.Listed(after);
      CurrentIgnoresSchedule(listed, id, v);
      Billing.CurrentInRange(listed);
    }
  }

  /** Stripe goes on answering with the same subscription, scheduled if it is the one that was named. */
  lemma FetchAfterSchedule(stripe: Stripe, id: string, v: bool, customer: string)
    ensures SetCancelAtPeriodEnd(stripe, id, v).Fetch(customer) == Rescheduled(stripe.Fetch(customer), id, v)
  {
    if customer in stripe.subs {
      FetchCurrentAfterSchedule(stripe.subs[customer], stripe.metadata, id, v);
    }
  }

  /** Whether the row shows the schedule that was asked for. */
  predicate Shows(current: Option<RemoteSubscription>, id: string, value: bool) {
    && current.Some? && !current.value.status.NoSubscription?
    && (if current.value.id == id then value else current.value.cancelAtPeriodEnd)
  }

  lemma ProjectAfterSchedule(catalog: Catalog, current: Option<RemoteSubscription>, id: string, v: bool)
    ensures var m := Project(catalog, Rescheduled(current, id, v));
            && m == Project(catalog, current).(cancelAtPeriodEnd := m.cancelAtPeriodEnd)
            && (m.cancelAtPeriodEnd <==> Shows(current, id, v))
  {
  }

  /** The row of a user after a request that reached Stripe gives the access it would have given anyway,
      and says what Stripe says: it shows the new schedule exactly when the subscription it named is the
      customer's current one and has not ended, or that one was scheduled so already. */
  lemma RequestShowsExactly(db: Db, catalog: Catalog, stripe: Stripe, i: nat, value: bool, reason: string, now: Instant)
    requires TableOk(db.rows) && i < |db.rows| && Subscribed(db.rows[i])
    ensures var row := db.rows[i];
            var customer, o := row.customerId.GetOr(""), Ask(db, catalog, stripe, row, value, reason, now);
            && !o.synced.Ignored?
            && (o.synced.Synced? ==>
                  && i < |o.synced.db.rows|
                  && var m := o.synced.db.rows[i].mirror;
                     && m == Project(catalog, o.stripe.Fetch(customer))
                     && m == Project(catalog, stripe.Fetch(customer)).(cancelAtPeriodEnd := m.cancelAtPeriodEnd)
                     && (m.cancelAtPeriodEnd <==> Shows(stripe.Fetch(customer), row.mirror.subscriptionId.value, value)))
  {
    var row := db.rows[i];
    var customer, id := row.customerId.value, row.mirror.subscriptionId.value;
    FindIs(db.rows, ByCustomer(customer), i);
    FetchAfterSchedule(stripe, id, value, customer);
    ProjectAfterSchedule(catalog, stripe.Fetch(customer), id, value);
    SyncKeepsTable(db, catalog, SetCancelAtPeriodEnd(stripe, id, value), customer, None, reason, now);
  }

  // ---- there and back ----

  /** The row of this position says what Stripe says. */
  predicate InStep(db: Db, catalog: Catalog, stripe: Stripe, i: nat)
    requires i < |db.rows|
  {
    && Subscribed(db.rows[i]) && db.rows[i].customerId.Some?
    && db.rows[i].mirror == Project(catalog, stripe.Fetch(db.rows[i].customerId.value))
  }

  /** The row with a dunning window that means nothing taken off it, as every sync does. */
  function Tidied(row: Row): Row {
    if row.mirror.status.PastDue? then row else row.(pastDueSince := None)
  }

  /** A request for a row in step changes that one flag of that one row, and cannot fail on a constraint. */
  lemma AskFlipsTheFlag(db: Db, catalog: Catalog, stripe: Stripe, i: nat, value: bool, reason: string, now: Instant)
    requires TableOk(db.rows) && i < |db.rows| && InStep(db, catalog, stripe, i)
    ensures var row := db.rows[i];
            var o := Ask(db, catalog, stripe, row, value, reason, now);
            && o.synced.Synced?
            && o.synced.db.rows == db.rows[i := Tidied(row).(mirror := row.mirror.(cancelAtPeriodEnd := value))]
            && TableOk(o.synced.db.rows) && InStep(o.synced.db, catalog, o.stripe, i)
  {
    var row := db.rows[i];
    var customer, id := row.customerId.value, row.mirror.subscriptionId.value;
    var after := SetCancelAtPeriodEnd(stripe, id, value);
    var state := row.mirror.(cancelAtPeriodEnd := value);
    FindIs(db.rows, ByCustomer(customer), i);
    FetchAfterSchedule(stripe, id, value, customer);
    ProjectAfterSchedule(catalog, stripe.Fetch(customer), id, value);
    UpdateKeepsUnique(db.rows, i, Written(row, state, now));
    SyncKeepsTable(db, catalog, after, customer, None, reason, now);
  }

  /** Stripe holds nothing scheduled to end under this id. */
  ghost predicate NothingScheduled(stripe: Stripe, id: string) {
    forall c, k :: c in stripe.subs && 0 <= k < |stripe.subs[c]| && stripe.subs[c][k].id == id
                   ==> !stripe.subs[c][k].cancelAtPeriodEnd
  }

  lemma ScheduleRoundTrip(stripe: Stripe, id: string)
    requires NothingScheduled(stripe, id)
    ensures SetCancelAtPeriodEnd(SetCancelAtPeriodEnd(stripe, id, true), id, false) == stripe
  {
    var after := SetCancelAtPeriodEnd(SetCancelAtPeriodEnd(stripe, id, true), id, false);
    forall c | c in stripe.subs ensures after.subs[c] == stripe.subs[c] {
      assert forall k :: 0 <= k < |stripe.subs[c]| ==> after.subs[c][k] == stripe.subs[c][k];
    }
    assert after.subs == stripe.subs;
  }

  /** Cancelling and coming back: cancelling schedules the end and costs no access; resuming then puts
      all of Stripe back as it was, and every row, exactly if the row had no window left over on it. */
  lemma ResumeUndoesCancel(db: Db, catalog: Catalog, stripe: Stripe, userId: string, i: nat, now: Instant, later: Instant)
    requires TableOk(db.rows) && i < |db.rows| && db.rows[i].userId == userId && InStep(db, catalog, stripe, i)
    requires db.rows[i].mirror.status.GrantsAccess() && !db.rows[i].mirror.cancelAtPeriodEnd
    requires NothingScheduled(stripe, db.rows[i].mirror.subscriptionId.value)
    ensures var (mid, midStripe) := Settled(db, stripe, Cancel(db, catalog, stripe, userId, now));
            var (after, afterStripe) := Settled(mid, midStripe, Resume(mid, catalog, midStripe, userId, later));
            && mid.rows == db.rows[i := Tidied(db.rows[i]).(mirror := db.rows[i].mirror.(cancelAtPeriodEnd := true))]
            && after.rows == db.rows[i := Tidied(db.rows[i])] && afterStripe == stripe
            && (after.rows == db.rows <==> WindowOk(db.rows[i]))
  {
    hide Sync, Project, SetCancelAtPeriodEnd;
    var row := db.rows[i];
    assert db.rows[i := Tidied(row)][i] == Tidied(row) && db.rows[i := row] == db.rows;
    FindIs(db.rows, ByUser(userId), i);
    AskFlipsTheFlag(db, catalog, stripe, i, true, "customer.cancel_at_period_end", now);
    var o := Ask(db, catalog, stripe, row, true, "customer.cancel_at_period_end", now);
    var mid := o.synced.db;
    FindIs(mid.rows, ByUser(userId), i);
    AskFlipsTheFlag(mid, catalog, o.stripe, i, false, "customer.resumed", later);
    ScheduleRoundTrip(stripe, row.mirror.subscriptionId.value);
  }
}
