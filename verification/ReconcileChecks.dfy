/** What one reconcile check finds and does, in the words of Stripe's listing: `_reconcile_one` and
    `_record_orphan` in app/jobs/reconcile.py, from the payload to the report.
 */
module ReconcileChecks {
  import opened Models
  import opened StripeAccount
  import opened Subscriptions
  import opened Reconcile
  import Billing

  /** What the listing showed under one key of a subscription's metadata; empty when it showed nothing. */
  function StampOn(raw: Billing.RawSubscription, store: Billing.Metadata, key: string): string {
    if raw.id in store && key in store[raw.id] then store[raw.id][key] else ""
  }

  ghost predicate HasRow(db: Db, customer: string, k: nat) {
    UniqueRows(db.rows) && k < |db.rows| && db.rows[k].customerId == Some(customer)
  }

  ghost predicate HasNoRow(db: Db, customer: string) {
    forall k :: 0 <= k < |db.rows| ==> db.rows[k].customerId != Some(customer)
  }

  /** Whose subscription it is: its row's user; without a row the user stamped on the subscription, and only
      when there is none the user stamped on the customer. */
  ghost predicate BelongsTo(db: Db, stripe: Stripe, raw: Billing.RawSubscription, store: Billing.Metadata,
                            customer: string, user: string) {
    || (exists k: nat :: HasRow(db, customer, k) && db.rows[k].userId == user)
    || (HasNoRow(db, customer) && user != ""
        && user == if StampOn(raw, store, "user_id") != "" then StampOn(raw, store, "user_id")
                   else if customer in stripe.users then stripe.users[customer] else "")
  }

  lemma OwnerExactly(db: Db, stripe: Stripe, raw: Billing.RawSubscription, store: Billing.Metadata, customer: string, user: string)
    requires BelongsTo(db, stripe, raw, store, customer, user)
    ensures OwnerOf(db, stripe, Billing.Parse(raw, store), customer) == Some(user)
    ensures LocalRow(db, customer).None? <==> HasNoRow(db, customer)
  {
    if k: nat :| HasRow(db, customer, k) && db.rows[k].userId == user {
      FindIs(db.rows, ByCustomer(customer), k);
    } else {
      assert HasNoRow(db, customer);
      assert forall k :: 0 <= k < |db.rows| ==> !Matches(db.rows[k], ByCustomer(customer));
    }
  }

  /** Only a service of ours is looked at further: there is a row, or the first item's price buys a tier. */
  ghost predicate IsOurs(env: Env, db: Db, raw: Billing.RawSubscription, customer: string) {
    !HasNoRow(db, customer) || (raw.items != [] && exists t :: PriceGives(env.catalog, raw.items[0].price, t))
  }

  lemma OursExactly(env: Env, db: Db, raw: Billing.RawSubscription, store: Billing.Metadata, customer: string)
    ensures IsOurs(env, db, raw, customer)
            <==> LocalRow(db, customer).Some? || BelongsToThisService(env.catalog, Some(Billing.Parse(raw, store)))
  {
    BelongsExactly(env.catalog, raw, store);
    if k: nat :| k < |db.rows| && db.rows[k].customerId == Some(customer) {
      assert Matches(db.rows[k], ByCustomer(customer));
    }
  }

  /** Another application's subscription is counted and left alone, whoever's account it is. */
  lemma ChecksAStrangers(r: Report, db: Db, stripe: Stripe, env: Env, raw: Billing.RawSubscription, store: Billing.Metadata,
                         customer: string, turn: Turn)
    requires !turn.fault.LooksUpNothing?
    ensures var c := Check(r, db, stripe, env, Billing.Parse(raw, store), customer, turn);
            && (c.outcome.Ignoring? <==> !IsOurs(env, db, raw, customer))
            && (c.outcome.Ignoring? ==> c.stripe == stripe && c.report == r.(ignored := r.ignored + 1))
  {
    OursExactly(env, db, raw, store, customer);
  }

  /** One line about an orphan: whose it is, and the marks it carries or was just given. */
  predicate TellsOf(o: Orphan, raw: Billing.RawSubscription, store: Billing.Metadata, customer: string, user: string,
                    dryRun: bool, stamp: string) {
    && o.userId == user && o.customerId == customer && o.subscriptionId == raw.id
    && o.status == raw.status && o.cancelAtPeriodEnd == raw.cancelAtPeriodEnd
    && (StampOn(raw, store, "orphaned_at") != "" ==> o.orphanedAt == Some(StampOn(raw, store, "orphaned_at")))
    && (StampOn(raw, store, "orphaned_at") == "" ==> o.orphanedAt == if dryRun then None else Some(stamp))
    && o.notifiedAt == if StampOn(raw, store, "orphan_notified_at") == "" then None
                       else Some(StampOn(raw, store, "orphan_notified_at"))
  }

  /** One that has ended is only counted; any other is listed, and marked in Stripe first if it was not and
      the run is not dry; and if that mark fails the check does. Nothing else in Stripe moves. */
  ghost predicate AsAnOrphan(c: Checked, r: Report, stripe: Stripe, dryRun: bool, raw: Billing.RawSubscription,
                             store: Billing.Metadata, customer: string, user: string, turn: Turn) {
    var first := !dryRun && StampOn(raw, store, "orphaned_at") == "";
    if raw.status in {"canceled", "incomplete_expired"}
    then c == Checked(OrphanedClosed, stripe, false, r.(orphanedClosed := r.orphanedClosed + 1))
    else if first && turn.fault.MetadataFails? then c == Checked(NotClassified, stripe, false, r)
    else
      && c.outcome == Orphaned && |c.report.orphaned| == |r.orphaned| + 1
      && c.report == r.(orphaned := r.orphaned + [c.report.orphaned[|r.orphaned|]])
      && TellsOf(c.report.orphaned[|r.orphaned|], raw, store, customer, user, dryRun, turn.stamp)
      && SameSubscriptions(c.stripe, stripe)
      && forall id, key :: ValueOf(c.stripe, id, key)
                           == if first && id == raw.id && key == "orphaned_at" then turn.stamp else ValueOf(stripe, id, key)
  }

  lemma RecordsAnOrphan(r: Report, stripe: Stripe, dryRun: bool, raw: Billing.RawSubscription, store: Billing.Metadata,
                        customer: string, user: string, turn: Turn)
    ensures var c := Recorded(r, stripe, dryRun, Billing.Parse(raw, store), customer, user, turn);
            AsAnOrphan(c, r, stripe, dryRun, raw, store, customer, user, turn)
  {
    hide ValueOf, Merged;
    SettingMeans(stripe, raw.id, map[ORPHANED_AT := turn.stamp]);
  }

  /** One of ours whose account is gone: canceled or expired it can take no more money and is counted, any
      other is listed and marked. */
  lemma ChecksAnOrphan(r: Report, db: Db, stripe: Stripe, env: Env, raw: Billing.RawSubscription, store: Billing.Metadata,
                       customer: string, user: string, turn: Turn)
    requires !turn.fault.LooksUpNothing? && IsOurs(env, db, raw, customer)
    requires BelongsTo(db, stripe, raw, store, customer, user) && user != "" && user in env.gone && env.gone[user]
    ensures var c := Check(r, db, stripe, env, Billing.Parse(raw, store), customer, turn);
            AsAnOrphan(c, r, stripe, env.dryRun, raw, store, customer, user, turn)
  {
    hide Recorded, IsOurs, BelongsTo, OwnerOf, LocalRow, BelongsToThisService, AsAnOrphan, Billing.Parse;
    OursExactly(env, db, raw, store, customer);
    OwnerExactly(db, stripe, raw, store, customer, user);
    RecordsAnOrphan(r, stripe, env.dryRun, raw, store, customer, user, turn);
  }

  predicate SameSubscriptions(a: Stripe, b: Stripe) {
    a.subs == b.subs && a.users == b.users
  }

  /** An account that is there, or of which the directory cannot tell: without a row the customer is unknown,
      else the row agrees or not, on tier and status alone, and a disagreement is listed. */
  lemma ChecksOneOfOurs(r: Report, db: Db, stripe: Stripe, env: Env, raw: Billing.RawSubscription, store: Billing.Metadata,
                        customer: string, turn: Turn)
    requires !turn.fault.LooksUpNothing? && !turn.fault.MetadataFails? && IsOurs(env, db, raw, customer)
    requires UniqueRows(db.rows)
    requires !exists u :: BelongsTo(db, stripe, raw, store, customer, u) && u != "" && u in env.gone && env.gone[u]
    ensures var c, state := Check(r, db, stripe, env, Billing.Parse(raw, store), customer, turn),
                            Project(env.catalog, Some(Billing.Parse(raw, store)));
            && (c.outcome.Unknown? <==> HasNoRow(db, customer))
            && (c.outcome.Unknown? ==> c.report == r.(unknownCustomers := r.unknownCustomers + [customer]))
            && forall k: nat :: HasRow(db, customer, k) ==>
                 var m := db.rows[k].mirror;
                 if m.tier == state.tier && m.status == state.status then c.outcome == Agreeing && c.report == r
                 else
                   && c.outcome == Mismatched
                   && c.report == r.(mismatched := r.mismatched + 1,
                                     details := r.details + [Detail(db.rows[k].userId, customer, m.tier, m.status, state.tier, raw.status)])
  {
    hide Project;
    OursExactly(env, db, raw, store, customer);
    NotKnownGone(db, stripe, env, raw, store, customer);
    forall k: nat | HasRow(db, customer, k) ensures LocalRow(db, customer) == Some(db.rows[k]) {
      FindIs(db.rows, ByCustomer(customer), k);
    }
  }

  lemma NotKnownGone(db: Db, stripe: Stripe, env: Env, raw: Billing.RawSubscription, store: Billing.Metadata, customer: string)
    requires UniqueRows(db.rows)
    ensures var gone := Gone(db, stripe, env, Billing.Parse(raw, store), customer);
            && (LocalRow(db, customer).None? <==> HasNoRow(db, customer))
            && (gone == Some(true) <==> exists u :: BelongsTo(db, stripe, raw, store, customer, u) && u != "" && u in env.gone && env.gone[u])
            && (gone == Some(false) <==> exists u :: BelongsTo(db, stripe, raw, store, customer, u) && u != "" && u in env.gone && !env.gone[u])
  {
    var owner := OwnerOf(db, stripe, Billing.Parse(raw, store), customer);
    forall u | BelongsTo(db, stripe, raw, store, customer, u) ensures owner == Some(u) {
      OwnerExactly(db, stripe, raw, store, customer, u);
    }
    match Find(db.rows, ByCustomer(customer))
    case Some(k) => assert HasRow(db, customer, k);
    case None => assert forall k :: 0 <= k < |db.rows| ==> !Matches(db.rows[k], ByCustomer(customer));
    assert owner.Some? && owner.value != "" ==> BelongsTo(db, stripe, raw, store, customer, owner.value);
  }

  /** Marks come off exactly when the account of one of ours is known to be there, unless the run is dry; and
      if that fails the check does. */
  lemma ChecksTheMarks(r: Report, db: Db, stripe: Stripe, env: Env, raw: Billing.RawSubscription, store: Billing.Metadata,
                       customer: string, turn: Turn)
    requires !turn.fault.LooksUpNothing? && IsOurs(env, db, raw, customer) && UniqueRows(db.rows)
    requires !exists u :: BelongsTo(db, stripe, raw, store, customer, u) && u != "" && u in env.gone && env.gone[u]
    ensures var c := Check(r, db, stripe, env, Billing.Parse(raw, store), customer, turn);
            var takesOff := && !env.dryRun && (StampOn(raw, store, "orphaned_at") != "" || StampOn(raw, store, "orphan_notified_at") != "")
                            && exists u :: BelongsTo(db, stripe, raw, store, customer, u) && u != "" && u in env.gone && !env.gone[u];
            if takesOff && turn.fault.MetadataFails? then c == Checked(NotClassified, stripe, false, r)
            else
              && c.outcome in {Unknown, Agreeing, Mismatched} && c.cleared == takesOff && SameSubscriptions(c.stripe, stripe)
              && forall id, key :: ValueOf(c.stripe, id, key)
                                   == if takesOff && id == raw.id && key in {"orphaned_at", "orphan_notified_at"} then ""
                                      else ValueOf(stripe, id, key)
  {
    hide Project, BelongsTo, IsOurs, BelongsToThisService, Gone, ValueOf, Merged;
    SettingMeans(stripe, raw.id, NO_MARKS);
    OursExactly(env, db, raw, store, customer);
    NotKnownGone(db, stripe, env, raw, store, customer);
  }

  /** How a check ends. It lands unless it could not classify, its repair is refused or raises, or its commit
      fails, where a dry run neither repairs nor commits. Landed, it wrote the sync it called for, drops whom
      that marked, and counts as a repair; otherwise the tables are as before and the customer is listed. */
  lemma VisitEnds(p: Pass, env: Env, raw: Billing.RawSubscription, store: Billing.Metadata, turn: Turn, customer: string)
    requires raw.customer == Some(customer) && customer != ""
    ensures var remote := Billing.Parse(raw, store);
            var q, o := Visit(p, env, remote, turn), OutcomeOf(p, env, remote, turn);
            var drift := !env.dryRun && o in {Unknown, Mismatched};
            var sync := Sync(p.db, env.catalog, q.stripe, customer, None,
                             if o.Unknown? then "reconcile.unknown_customer" else "reconcile.drift", turn.now);
            var lands := && !o.NotClassified? && (env.dryRun || !turn.fault.CommitFails?)
                         && (drift ==> !turn.fault.SyncRaises? && !sync.IntegrityError?);
            && o == Check(p.report.(checked := p.report.checked + 1), p.db, p.stripe, env, remote, customer, turn).outcome
            && q.report.checked == p.report.checked + 1
            && q.report.failed == p.report.failed + (if lands then [] else [customer])
            && q.report.repaired == p.report.repaired + (if lands && drift then 1 else 0)
            && q.db == (if lands && drift && sync.Synced? then sync.db else p.db)
            && q.drained == p.drained + (if lands && drift && sync.Synced? then sync.marks else {})
  {
    hide Sync, Check, Billing.Parse;
    CustomerAsListed(raw, store);
    var c := CheckIn(p, env, Billing.Parse(raw, store), turn);
    CheckLeavesTheRest(p.report.(checked := p.report.checked + 1), p.db, p.stripe, env, Billing.Parse(raw, store), customer, turn);
    assert p.report.failed + [] == p.report.failed;
  }

  lemma CustomerAsListed(raw: Billing.RawSubscription, store: Billing.Metadata)
    ensures Billing.Parse(raw, store).customerId == raw.customer
  {
  }

  lemma CheckLeavesTheRest(r: Report, db: Db, stripe: Stripe, env: Env, remote: RemoteSubscription, customer: string, turn: Turn)
    ensures var after := Check(r, db, stripe, env, remote, customer, turn).report;
            after.failed == r.failed && after.repaired == r.repaired && after.checked == r.checked
  {
  }

  /** A subscription that names no customer is only counted. */
  lemma VisitsNobody(p: Pass, env: Env, raw: Billing.RawSubscription, store: Billing.Metadata, turn: Turn)
    requires raw.customer in {None, Some("")}
    ensures Visit(p, env, Billing.Parse(raw, store), turn) == p.(report := p.report.(checked := p.report.checked + 1))
  {
  }

  /** How the email ends. With nobody pending nothing happens. Unless it is accepted the pending orphans are
      listed as still to be told, and that is all. Accepted, one email lists them all, each of them is listed as
      told then, whoever was told before keeps when that was, and Stripe is marked but where a mark fails. */
  lemma NotifiesExactly(report: Report, stripe: Stripe, notifier: Notifier, sentAt: Stamp)
    ensures var (after, marked, emails) := Notified(report, stripe, notifier, sentAt);
            var pending := PendingIds(report.orphaned);
            && (pending == [] ==> after == report && marked == stripe && emails == [])
            && (pending != [] && !notifier.Accepts? ==> after == report.(unnotified := pending) && marked == stripe && emails == [])
            && (pending != [] && notifier.Accepts? ==>
                  && emails == [pending] && |after.orphaned| == |report.orphaned|
                  && after == report.(orphaned := after.orphaned, notified := report.notified + pending)
                  && (forall i :: 0 <= i < |report.orphaned| ==>
                        after.orphaned[i] == report.orphaned[i].(notifiedAt := Some(report.orphaned[i].notifiedAt.GetOr(sentAt))))
                  && SameSubscriptions(marked, stripe)
                  && forall id, key :: ValueOf(marked, id, key)
                                       == if id in pending && id !in notifier.marksFailing && key == "orphan_notified_at" then sentAt
                                          else ValueOf(stripe, id, key))
  {
    hide ValueOf;
    if notifier.Accepts? {
      MarksThemAll(stripe, PendingIds(report.orphaned), notifier.marksFailing, sentAt);
    }
  }

  lemma {:induction false} MarksThemAll(stripe: Stripe, ids: seq<string>, failing: set<string>, sentAt: Stamp)
    ensures var marked := MarkNotified(stripe, ids, failing, sentAt);
            && SameSubscriptions(marked, stripe)
            && forall id, key :: ValueOf(marked, id, key)
                                 == if id in ids && id !in failing && key == "orphan_notified_at" then sentAt
                                    else ValueOf(stripe, id, key)
  {
    hide ValueOf, Merged;
    if ids != [] {
      var init, last := ids[..|ids| - 1], ids[|ids| - 1];
      MarksThemAll(stripe, init, failing, sentAt);
      SettingMeans(MarkNotified(stripe, init, failing, sentAt), last, map[NOTIFIED_AT := sentAt]);
      assert forall id :: id in ids <==> id in init || id == last;
    }
  }

  /** Whoever is pending is listed without having been told. */
  lemma {:induction false} PendingExactly(orphans: seq<Orphan>, id: string)
    ensures id in PendingIds(orphans)
            <==> exists i :: 0 <= i < |orphans| && orphans[i].subscriptionId == id && orphans[i].notifiedAt.None?
  {
    if orphans != [] {
      PendingExactly(orphans[..|orphans| - 1], id);
      if id in PendingIds(orphans) && id !in PendingIds(orphans[..|orphans| - 1]) {
        assert orphans[|orphans| - 1].subscriptionId == id;
      }
    }
  }
}
