/** Support's writes, and the customer's own: app/routers/admin.py and the customer-facing half of
    app/services/subscriptions.py.
 */
module Admin {
  import opened Models
  import opened Sessions
  import opened Subscriptions
  import Billing

  // ---- extend-grace ----

  /** Pushes a past_due cut-off back, from the row as it was read: refused when that was not past_due.
      The read takes no lock, so the row may say something else by the time the new cut-off lands on it;
      the entry says what was read. */
  function ExtendGrace(db: Db, seen: Row, days: int, now: Instant): Option<Db> {
    match Find(db.rows, ByUser(seen.userId))
    case None => None
    case Some(i) =>
      if seen.pastDueSince.None? then None
      else
        Some(db.(rows := db.rows[i := db.rows[i].(pastDueSince := Some(seen.pastDueSince.value + days * DAY))],
                 audits := db.audits + [AuditOf(seen, seen, "admin.extend_grace", None, now)]))
  }

  /** The handler from its read on: `seen` is the user's row as read, or None when there is none. Rows are
      never deleted, so the user still has one. */
  method ExtendGraceFor(session: Session, seen: Option<Row>, days: int, now: Instant, deletesFailing: set<string>)
    returns (ok: bool)
    requires session.Idle()
    requires seen.Some? ==> Find(session.committed.rows, ByUser(seen.value.userId)).Some?
    modifies session, session.cache
    ensures session.Idle()
    ensures ok == (seen.Some? && seen.value.pastDueSince.Some?)
    ensures !ok ==> session.committed == old(session.committed) && unchanged(session.cache)
    ensures ok ==>
              && Some(session.committed) == ExtendGrace(old(session.committed), seen.value, days, now)
              && session.cache.data == old(session.cache.data) - EntitlementKeys({seen.value.userId} - deletesFailing)
  {
    if seen.None? {
      return false;
    }
    var row := seen.value;
    if row.pastDueSince.None? {
      return false;
    }
    var since := row.pastDueSince.value + days * DAY;
    var at := Find(session.working.rows, ByUser(row.userId)).value;
    var sub := new SubscriptionRow(session.working.rows[at]);
    sub.pastDueSince := Some(since);
    session.working := session.working.(
      rows := session.working.rows[at := sub.Value()],
      audits := session.working.audits + [AuditOf(row, row, "admin.extend_grace", None, now)]);
    MarkEntitlementsStale(session, row.userId);
    CommitAndInvalidate(session, deletesFailing);
    return true;
  }

  /** What an extension leaves on the row it lands on is always the cut-off it read, moved; it keeps the
      row's own window if and only if the row still has the window that was read. */
  lemma ExtensionMovesTheWindowIff(db: Db, seen: Row, days: int, now: Instant, i: nat)
    requires UniqueRows(db.rows) && i < |db.rows| && db.rows[i].userId == seen.userId && seen.pastDueSince.Some?
    ensures var r := ExtendGrace(db, seen, days, now);
            && r.Some? && |r.value.rows| == |db.rows|
            && r.value.rows[i].mirror == db.rows[i].mirror
            && (r.value.rows[i].pastDueSince == (if db.rows[i].pastDueSince.None? then None
                                                 else Some(db.rows[i].pastDueSince.value + days * DAY))
                <==> db.rows[i].pastDueSince == seen.pastDueSince)
            && forall k :: 0 <= k < |db.rows| && k != i ==> r.value.rows[k] == db.rows[k]
  {
    FindIs(db.rows, ByUser(seen.userId), i);
  }

  // ---- grants ----

  function GrantAudit(userId: string, from: Option<Tier>, to: Option<Tier>, reason: string, now: Instant): Audit {
    Audit(userId, from, to, None, None, reason, None, now)
  }

  /** A comp; granting free is refused. The new grant's id is its position. */
  function CreateGrant(db: Db, userId: string, tier: Tier, expiresAt: Option<Instant>, now: Instant): Option<Db> {
    if tier == Tier.Free then None
    else
      Some(db.(grants := db.grants + [Grant(|db.grants|, userId, tier, expiresAt, None)],
               audits := db.audits + [GrantAudit(userId, None, Some(tier), "admin.grant_created", now)]))
  }

  method CreateGrantFor(session: Session, userId: string, tier: Tier, expiresAt: Option<Instant>, now: Instant,
                        deletesFailing: set<string>)
    returns (ok: bool)
    requires session.Idle()
    modifies session, session.cache
    ensures session.Idle()
    ensures match CreateGrant(old(session.committed), userId, tier, expiresAt, now)
            case None => !ok && session.committed == old(session.committed) && unchanged(session.cache)
            case Some(db) => ok && session.committed == db
                             && session.cache.data == old(session.cache.data) - EntitlementKeys({userId} - deletesFailing)
  {
    if tier == Tier.Free {
      return false;
    }
    var grant := Grant(|session.working.grants|, userId, tier, expiresAt, None);
    session.working := session.working.(
      grants := session.working.grants + [grant],
      audits := session.working.audits + [GrantAudit(userId, None, Some(tier), "admin.grant_created", now)]);
    MarkEntitlementsStale(session, userId);
    CommitAndInvalidate(session, deletesFailing);
    return true;
  }

  /** Revoking twice writes nothing the second time. */
  function RevokeGrant(db: Db, id: nat, now: Instant): Option<Db> {
    if id >= |db.grants| then None
    else
      var g := db.grants[id];
      if g.revokedAt.Some? then Some(db)
      else
        Some(db.(grants := db.grants[id := g.(revokedAt := Some(now))],
                 audits := db.audits + [GrantAudit(g.userId, Some(g.tier), None, "admin.grant_revoked", now)]))
  }

  /** A revocation that read the grant before another one revoked it: dated again, and audited again. */
  function LateRevoke(db: Db, id: nat, now: Instant): Db {
    if id >= |db.grants| then db
    else
      var g := db.grants[id];
      db.(grants := db.grants[id := g.(revokedAt := Some(now))],
          audits := db.audits + [GrantAudit(g.userId, Some(g.tier), None, "admin.grant_revoked", now)])
  }

  method RevokeGrantById(session: Session, id: nat, now: Instant, deletesFailing: set<string>)
    returns (ok: bool)
    requires session.Idle()
    modifies session, session.cache
    ensures session.Idle()
    ensures match RevokeGrant(old(session.committed), id, now)
            case None => !ok && session.committed == old(session.committed) && unchanged(session.cache)
            case Some(db) =>
              ok && session.committed == db
              && (db == old(session.committed) ==> unchanged(session.cache))
              && (db != old(session.committed) ==>
                    session.cache.data == old(session.cache.data)
                                          - EntitlementKeys({db.grants[id].userId} - deletesFailing))
  {
    if id >= |session.working.grants| {
      return false;
    }
    var g := session.working.grants[id];
    if g.revokedAt.None? {
      session.working := session.working.(
        grants := session.working.grants[id := g.(revokedAt := Some(now))],
        audits := session.working.audits + [GrantAudit(g.userId, Some(g.tier), None, "admin.grant_revoked", now)]);
      MarkEntitlementsStale(session, g.userId);
      CommitAndInvalidate(session, deletesFailing);
      assert session.committed.grants[id] != old(session.committed).grants[id];
    }
    return true;
  }

  /** Support's writes in the log: a comp tells what it gave, its revocation what it took, and an extension
      that neither tier nor status moved; a revocation that took nothing writes nothing, and one that
      was overtaken dates the grant once more and tells of it again. */
  lemma SupportIsAudited(db: Db, userId: string, tier: Tier, expiresAt: Option<Instant>, id: nat, seen: Row, days: int, now: Instant)
    ensures var r := CreateGrant(db, userId, tier, expiresAt, now);
            r.Some? ==> r.value.audits == db.audits + [Audit(userId, None, Some(tier), None, None, "admin.grant_created", None, now)]
    ensures var r := RevokeGrant(db, id, now);
            && (r.Some? <==> id < |db.grants|)
            && (r.Some? && db.grants[id].revokedAt.Some? ==> r.value == db)
            && (r.Some? && db.grants[id].revokedAt.None? ==>
                  && r.value.grants[id].revokedAt == Some(now)
                  && r.value.audits == db.audits + [Audit(db.grants[id].userId, Some(db.grants[id].tier), None, None, None,
                                                          "admin.grant_revoked", None, now)])
    ensures id < |db.grants| ==>
              LateRevoke(db, id, now)
              == db.(grants := db.grants[id := db.grants[id].(revokedAt := Some(now))],
                     audits := db.audits + [Audit(db.grants[id].userId, Some(db.grants[id].tier), None, None, None,
                                                  "admin.grant_revoked", None, now)])
    ensures var r, m := ExtendGrace(db, seen, days, now), seen.mirror;
            r.Some? ==>
              r.value.audits == db.audits + [Audit(seen.userId, Some(m.tier), Some(m.tier), Some(m.status), Some(m.status),
                                                   "admin.extend_grace", None, now)]
  {
  }

  // ---- sign-up and checkout ----

  /** Every account gets a row, on free, and keeps it. */
  function GetOrCreate(rows: seq<Row>, userId: string): (r: (seq<Row>, nat))
    ensures r.1 < |r.0| && r.0[r.1].userId == userId
    ensures rows <= r.0 && |r.0| <= |rows| + 1
    ensures |r.0| == |rows| <==> exists i :: 0 <= i < |rows| && rows[i].userId == userId
    ensures |r.0| > |rows| ==> r.0[r.1] == FreshRow(userId) && r.1 == |rows|
  {
    match Find(rows, ByUser(userId))
    case Some(i) => (rows, i)
    case None =>
      assert forall i :: 0 <= i < |rows| ==> !Matches(rows[i], ByUser(userId));
      (rows + [FreshRow(userId)], |rows|)
  }

  datatype Checkout = Refused | Started(db: Db, customer: string)

  /** Starts a hosted checkout. `created` is the customer Stripe makes when there is none yet. */
  function StartCheckout(db: Db, stripe: Stripe, userId: string, priceOk: bool, created: string): Checkout {
    if !priceOk then Refused
    else
      var (rows, i) := GetOrCreate(db.rows, userId);
      var row := rows[i];
      if row.mirror.status.GrantsAccess() then Refused
      else if row.customerId.Some? && Pays(stripe.Fetch(row.customerId.value)) then Refused
      else
        var customer := row.customerId.GetOr(created);
        var after := rows[i := row.(customerId := Some(customer))];
        if !UniqueRows(after) then Refused else Started(db.(rows := after), customer)
  }

  predicate Pays(remote: Option<RemoteSubscription>) {
    remote.Some? && remote.value.status.GrantsAccess()
  }

  method StartCheckoutFor(session: Session, stripe: Stripe, userId: string, priceOk: bool, created: string)
    returns (customer: Option<string>)
    requires session.Idle()
    modifies session
    ensures session.Idle()
    ensures match StartCheckout(old(session.committed), stripe, userId, priceOk, created)
            case Refused => customer == None && session.committed == old(session.committed)
            case Started(db, c) => customer == Some(c) && session.committed == db
  {
    if !priceOk {
      return None;
    }
    var rows, i := GetOrCreate(session.working.rows, userId).0, GetOrCreate(session.working.rows, userId).1;
    var sub := new SubscriptionRow(rows[i]);
    if sub.status.GrantsAccess() {
      return None;
    }
    if sub.customerId.Some? {
      var remote := stripe.Fetch(sub.customerId.value);
      if Pays(remote) {
        return None;
      }
    }
    var id := sub.customerId.GetOr(created);
    if sub.customerId != Some(id) {
      sub.customerId := Some(id);
    }
    rows := rows[i := sub.Value()];
    if !UniqueRows(rows) {
      return None;
    }
    session.working := session.working.(rows := rows);
    session.Commit();
    return Some(id);
  }

  /** A checkout that was overtaken: it read a row without a customer, and its customer id lands on
      whatever the user's row carries by then. */
  function LateCheckout(db: Db, userId: string, created: string): Db {
    match Find(db.rows, ByUser(userId))
    case None => db
    case Some(i) =>
      var after := db.rows[i := db.rows[i].(customerId := Some(created))];
      if UniqueRows(after) then db.(rows := after) else db
  }

  /** Whatever the row carries by then, it carries the new customer afterwards and is otherwise as it was,
      unless somebody else carries that customer, and then nothing is written. */
  lemma LateCheckoutExactly(db: Db, userId: string, created: string, k: nat)
    requires UniqueRows(db.rows) && k < |db.rows| && db.rows[k].userId == userId
    ensures LateCheckout(db, userId, created)
            == if exists j :: 0 <= j < |db.rows| && j != k && db.rows[j].customerId == Some(created) then db
               else db.(rows := db.rows[k := db.rows[k].(customerId := Some(created))])
  {
    FindIs(db.rows, ByUser(userId), k);
    CarriedByNobody(db.rows, k, created);
  }

  /** When nothing overtakes it, a checkout starts only for someone who does not pay: neither by the
      mirror nor through any subscription Stripe lists for the customer; and a stored customer id is
      kept. Two sessions opened before either is paid are not excluded. */
  lemma CheckoutStartsOnlyForTheUnpaid(db: Db, stripe: Stripe, userId: string, priceOk: bool, created: string)
    requires UniqueRows(db.rows)
    ensures var r := StartCheckout(db, stripe, userId, priceOk, created);
            r.Started? ==>
              forall i :: 0 <= i < |db.rows| && db.rows[i].userId == userId ==>
                && !db.rows[i].mirror.status.GrantsAccess()
                && (db.rows[i].customerId.Some? ==> r.customer == db.rows[i].customerId.value)
                && (db.rows[i].customerId.Some? && r.customer in stripe.subs ==>
                      forall j :: 0 <= j < |stripe.subs[r.customer]| && j < Billing.FETCH_LIMIT ==>
                                    stripe.subs[r.customer][j].status !in {"active", "trialing", "past_due", "unpaid"})
  {
    var r := StartCheckout(db, stripe, userId, priceOk, created);
    if r.Started? {
      forall i | 0 <= i < |db.rows| && db.rows[i].userId == userId
        ensures Find(db.rows, ByUser(userId)) == Some(i)
      {
        FindIs(db.rows, ByUser(userId), i);
      }
      if r.customer in stripe.subs && stripe.subs[r.customer] != [] {
        var subs := stripe.subs[r.customer];
        var listed := Billing.Listed(subs);
        Billing.CurrentPaysIfAnyPays(listed);
        assert forall j :: 0 <= j < |listed| ==> subs[j] == listed[j];
      }
    }
  }

  /** Stripe lists a subscription of this customer that pays, among those it answers with. */
  ghost predicate ListsAPaying(stripe: Stripe, customer: string) {
    customer in stripe.subs
    && exists j :: 0 <= j < |stripe.subs[customer]| && j < 100
                   && stripe.subs[customer][j].status in {"active", "trialing", "past_due", "unpaid"}
  }

  lemma PaysExactly(stripe: Stripe, customer: string)
    ensures Pays(stripe.Fetch(customer)) <==> ListsAPaying(stripe, customer)
  {
    if customer in stripe.subs && stripe.subs[customer] != [] {
      var subs, listed := stripe.subs[customer], Billing.Listed(stripe.subs[customer]);
      Billing.CurrentPaysIfAnyPays(listed);
      assert forall j :: 0 <= j < |listed| ==> subs[j] == listed[j];
      Billing.WordsMean(listed[Billing.CurrentIndex(listed)].status);
    }
  }

  /** A checkout of somebody with a row starts if and only if the price is sold, neither the mirror nor Stripe
      shows them paying, and no one else carries the customer; and then their row carries it, the one they
      had before if they had one, and nothing else has moved. */
  lemma CheckoutExactly(db: Db, stripe: Stripe, userId: string, k: nat, priceOk: bool, created: string)
    requires UniqueRows(db.rows) && k < |db.rows| && db.rows[k].userId == userId
    ensures var r, row := StartCheckout(db, stripe, userId, priceOk, created), db.rows[k];
            && (r.Started? <==>
                  && priceOk && row.mirror.status !in {Trialing, Active, PastDue}
                  && (row.customerId.Some? ==> !ListsAPaying(stripe, row.customerId.value))
                  && (row.customerId.None? ==> forall j :: 0 <= j < |db.rows| ==> db.rows[j].customerId != Some(created)))
            && (r.Started? ==>
                  && r.customer == (if row.customerId.Some? then row.customerId.value else created)
                  && r.db == db.(rows := db.rows[k := row.(customerId := Some(r.customer))]))
  {
    var row := db.rows[k];
    FindIs(db.rows, ByUser(userId), k);
    if row.customerId.Some? {
      PaysExactly(stripe, row.customerId.value);
      assert db.rows[k := row] == db.rows && row.(customerId := Some(row.customerId.value)) == row;
    } else {
      CarriedByNobody(db.rows, k, created);
    }
  }

  lemma CarriedByNobody(rows: seq<Row>, k: nat, created: string)
    requires UniqueRows(rows) && k < |rows|
    ensures UniqueRows(rows[k := rows[k].(customerId := Some(created))])
            <==> forall j :: 0 <= j < |rows| && j != k ==> rows[j].customerId != Some(created)
  {
    var after := rows[k := rows[k].(customerId := Some(created))];
    if j: nat :| j < |rows| && j != k && rows[j].customerId == Some(created) {
      assert Conflict(after[j], after[k]) && Conflict(after[k], after[j]);
    } else {
      forall i, j | 0 <= i < j < |after| ensures !Conflict(after[i], after[j]) {
        assert !Conflict(rows[i], rows[j]);
      }
    }
  }

  /** And of somebody new, unless the new customer is somebody's: a row on free that carries it. */
  lemma FirstCheckoutExactly(db: Db, stripe: Stripe, userId: string, priceOk: bool, created: string)
    requires UniqueRows(db.rows) && forall k :: 0 <= k < |db.rows| ==> db.rows[k].userId != userId
    ensures var r := StartCheckout(db, stripe, userId, priceOk, created);
            && (r.Started? <==> priceOk && forall j :: 0 <= j < |db.rows| ==> db.rows[j].customerId != Some(created))
            && (r.Started? ==>
                  && r.customer == created
                  && r.db == db.(rows := db.rows + [Row(userId, Some(created), NO_SUBSCRIPTION, None, None)]))
  {
    var rows := db.rows + [FreshRow(userId)];
    assert Find(db.rows, ByUser(userId)).None?;
    GetOrCreateIsUnique(db.rows, userId);
    CarriedByNobody(rows, |db.rows|, created);
    assert rows[|db.rows|].customerId != Some(created);
    assert rows[|db.rows| := rows[|db.rows|].(customerId := Some(created))]
           == db.rows + [Row(userId, Some(created), NO_SUBSCRIPTION, None, None)];
    assert forall j :: 0 <= j < |db.rows| ==> rows[j] == db.rows[j];
  }

  lemma GetOrCreateIsUnique(rows: seq<Row>, userId: string)
    requires UniqueRows(rows)
    ensures UniqueRows(GetOrCreate(rows, userId).0)
  {
    var after := GetOrCreate(rows, userId).0;
    forall i, j | 0 <= i < j < |after| ensures !Conflict(after[i], after[j]) {
      if j < |rows| { assert !Conflict(rows[i], rows[j]); }
    }
  }
}
