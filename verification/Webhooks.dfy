/** The webhook ledger: app/routers/webhooks.py.

    `Deliver` says on the committed tables what one delivery does, whatever fails on the way. It looks the
    event up without a lock, so it carries what it read; what the ledger says when its claim lands is
    unconstrained. From its claim on it runs alone here: full interleavings are SyncProtocol's subject.
 */
module Webhooks {
  import opened Models
  import opened Sessions
  import opened Subscriptions

  datatype Kind = SubscriptionChange | Dispute | OtherKind

  /** A verified event. An empty customer id counts as none. */
  datatype Event = Event(id: string, kind: Kind, eventType: string, customer: string, chargeCustomer: string) {
    function Customer(): string {
      if kind.Dispute? && customer == "" then chargeCustomer else customer
    }
  }

  /** What goes wrong during one delivery. */
  datatype Faults = Faults(
    claimFails: bool,          // the claim cannot be committed
    handlerRaises: bool,       // a lock timeout, Stripe, the database: anything inside the handler
    commitFails: bool,
    failureCommitFails: bool,  // even recording the failure fails
    deletesFailing: set<string>)

  datatype Response = Duplicate | Handled | NotOurs | ServerError {
    predicate Committed() {
      Handled? || NotOurs?
    }
  }

  datatype Handling = Raises | Done(db: Db, handled: bool, marks: set<string>)

  /** Everything `_handle` does inside the delivery's second transaction. */
  function Handle(db: Db, catalog: Catalog, stripe: Stripe, e: Event, now: Instant): Handling {
    if e.kind.OtherKind? || e.Customer() == "" then Done(db, false, {})
    else
      var stamped := if e.kind.Dispute? then Disputed(db, e.Customer(), Some(e.id), now) else db;
      match Sync(stamped, catalog, stripe, e.Customer(), Some(e.id), e.eventType, now)
      case Ignored => Done(stamped, true, {})
      case IntegrityError => Raises
      case Synced(after, _, marks) => Done(after, true, marks)
  }

  predicate IsProcessed(db: Db, id: string) {
    id in db.events && db.events[id] == Processed
  }

  function Noted(db: Db, id: string, status: EventStatus): Db {
    db.(events := db.events[id := status])
  }

  /** A delivery that read this claims for itself: unless the event was processed, or was not there and is
      by now, when the claim's insert finds it taken. */
  predicate MayClaim(db: Db, id: string, seen: Option<EventStatus>) {
    seen != Some(Processed) && (seen.None? ==> id !in db.events)
  }

  /** The ledger after the claim: it writes over whatever is there by then, except that `processing` over
      `processing` as read is no change, and writes nothing. */
  function ClaimedFor(db: Db, id: string, seen: Option<EventStatus>): Db {
    if seen == Some(Processing) then db else Noted(db, id, Processing)
  }

  /** One delivery that read `seen` in the ledger: the tables it leaves, and its answer. */
  function Deliver(db: Db, catalog: Catalog, stripe: Stripe, e: Event, seen: Option<EventStatus>, now: Instant, f: Faults): (Db, Response) {
    if !MayClaim(db, e.id, seen) then (db, Duplicate)
    else if f.claimFails then (db, ServerError)
    else
      var claimed := ClaimedFor(db, e.id, seen);
      var h := Handle(claimed, catalog, stripe, e, now);
      if h.Done? && !f.handlerRaises && !f.commitFails then
        (Noted(h.db, e.id, Processed), if h.handled then Handled else NotOurs)
      else
        (if f.failureCommitFails then claimed else Noted(claimed, e.id, Failed), ServerError)
  }

  /** Reserves the event id, in a transaction of its own, from its read of the ledger on. Events are never
      deleted, so one that was there still is. */
  method Claim(session: Session, id: string, seen: Option<EventStatus>, fails: bool) returns (raised: bool, claimed: bool)
    requires session.Idle() && (seen.Some? ==> id in session.committed.events)
    modifies session
    ensures session.Idle()
    ensures var db := old(session.committed);
            && claimed == (MayClaim(db, id, seen) && !fails)
            && raised == (MayClaim(db, id, seen) && fails)
            && session.committed == (if claimed then ClaimedFor(db, id, seen) else db)
            && (claimed ==> id in session.committed.events)
  {
    if seen.Some? {
      if seen.value == Processed {
        return false, false;
      }
      if seen.value != Processing {
        session.working := Noted(session.working, id, Processing);
      }
    } else if id in session.working.events {
      session.Rollback();
      return false, false;
    } else {
      session.working := Noted(session.working, id, Processing);
    }
    if fails {
      session.Rollback();
      return true, false;
    }
    session.Commit();
    return false, true;
  }

  method Mark(session: Session, id: string, status: EventStatus)
    requires session.Valid()
    modifies session`working
    ensures session.Valid() && session.working ==
              if id in old(session.working).events then Noted(old(session.working), id, status) else old(session.working)
  {
    if id !in session.working.events {
      return;
    }
    session.working := Noted(session.working, id, status);
  }

  method HandleEvent(session: Session, catalog: Catalog, stripe: Stripe, e: Event, now: Instant)
    returns (raised: bool, handled: bool)
    requires session.Idle()
    modifies session`working, session`marks
    ensures session.Valid()
    ensures match Handle(old(session.working), catalog, stripe, e, now)
            case Raises => raised
            case Done(db, h, marks) => !raised && handled == h && session.working == db && session.marks == marks
  {
    if e.kind.OtherKind? {
      return false, false;
    }
    var customer := e.customer;
    if e.kind.Dispute? && customer == "" {
      customer := e.chargeCustomer;
    }
    if customer == "" {
      return false, false;
    }
    if e.kind.Dispute? {
      MarkDisputed(session, customer, Some(e.id), now);
    }
    raised := SyncSubscriptionFromStripe(session, catalog, stripe, customer, Some(e.id), e.eventType, now);
    handled := true;
  }

  method StripeWebhook(session: Session, catalog: Catalog, stripe: Stripe, e: Event, seen: Option<EventStatus>,
                       now: Instant, f: Faults)
    returns (response: Response)
    requires session.Idle() && (seen.Some? ==> e.id in session.committed.events)
    modifies session, session.cache
    ensures session.Idle()
    ensures (session.committed, response) == Deliver(old(session.committed), catalog, stripe, e, seen, now, f)
    ensures session.cache.data ==
              if response.Committed() then
                var h := Handle(ClaimedFor(old(session.committed), e.id, seen), catalog, stripe, e, now);
                old(session.cache.data) - EntitlementKeys(h.marks - f.deletesFailing)
              else old(session.cache.data)
  {
    var raised, claimed := Claim(session, e.id, seen, f.claimFails);
    if raised {
      return ServerError;
    }
    if !claimed {
      return Duplicate;
    }
    HandleKeepsLedger(session.working, catalog, stripe, e, now);
    var failed, handled := HandleEvent(session, catalog, stripe, e, now);
    if !failed && !f.handlerRaises {
      Mark(session, e.id, Processed);
      if !f.commitFails {
        CommitAndInvalidate(session, f.deletesFailing);
        return if handled then Handled else NotOurs;
      }
    }
    session.Rollback();
    Mark(session, e.id, Failed);
    if f.failureCommitFails {
      session.Rollback();
    } else {
      session.Commit();
    }
    return ServerError;
  }

  // ---- the ledger over whole runs ----

  lemma HandleKeepsLedger(db: Db, catalog: Catalog, stripe: Stripe, e: Event, now: Instant)
    ensures var h := Handle(db, catalog, stripe, e, now);
            h.Done? ==> h.db.events == db.events && h.db.grants == db.grants
  {
    if !e.kind.OtherKind? && e.Customer() != "" {
      var stamped := if e.kind.Dispute? then Disputed(db, e.Customer(), Some(e.id), now) else db;
      SyncKeepsLedger(stamped, catalog, stripe, e.Customer(), Some(e.id), e.eventType, now);
    }
  }

  lemma SyncKeepsLedger(db: Db, catalog: Catalog, stripe: Stripe, customer: string, event: Option<string>,
                        reason: string, now: Instant)
    ensures var r := Sync(db, catalog, stripe, customer, event, reason, now);
            r.Synced? ==> r.db.events == db.events && r.db.grants == db.grants
  {
  }

  datatype Delivery = Delivery(event: Event, seen: Option<EventStatus>, stripe: Stripe, now: Instant, faults: Faults)

  function Apply(db: Db, catalog: Catalog, d: Delivery): (Db, Response) {
    Deliver(db, catalog, d.stripe, d.event, d.seen, d.now, d.faults)
  }

  /** The tables after any number of deliveries, in any order, of any events. */
  function Run(db: Db, catalog: Catalog, ds: seq<Delivery>): Db {
    if ds == [] then db
    else Apply(Run(db, catalog, ds[..|ds| - 1]), catalog, ds[|ds| - 1]).0
  }

  /** How many deliveries of this event had their effects committed. */
  function CommittedCount(db: Db, catalog: Catalog, ds: seq<Delivery>, id: string): nat {
    if ds == [] then 0
    else
      var init, last := ds[..|ds| - 1], ds[|ds| - 1];
      CommittedCount(db, catalog, init, id)
      + if last.event.id == id && Apply(Run(db, catalog, init), catalog, last).1.Committed() then 1 else 0
  }

  /** The delivery had read the event as failed or being processed, and it was processed by its claim. */
  predicate Overtaken(db: Db, d: Delivery) {
    IsProcessed(db, d.event.id) && d.seen.Some? && d.seen != Some(Processed)
  }

  function OvertakenCount(db: Db, catalog: Catalog, ds: seq<Delivery>, id: string): nat {
    if ds == [] then 0
    else
      var init, last := ds[..|ds| - 1], ds[|ds| - 1];
      OvertakenCount(db, catalog, init, id)
      + if last.event.id == id && Overtaken(Run(db, catalog, init), last) then 1 else 0
  }

  /** One delivery is all or nothing. Unless it answers 200 with its effects, the rows, grants and
      audit are exactly as before; the event may run again, unless an overtaken delivery left it as it
      was; and no other event is touched. */
  lemma DeliveryIsAtomic(db: Db, catalog: Catalog, d: Delivery)
    ensures var (after, response) := Apply(db, catalog, d);
            var h := Handle(ClaimedFor(db, d.event.id, d.seen), catalog, d.stripe, d.event, d.now);
            && (response.Committed() ==>
                  && (IsProcessed(db, d.event.id) <==> Overtaken(db, d)) && IsProcessed(after, d.event.id)
                  && h.Done? && (after.rows, after.grants, after.audits) == (h.db.rows, h.db.grants, h.db.audits))
            && (response.ServerError? ==>
                  && (after.rows, after.grants, after.audits) == (db.rows, db.grants, db.audits)
                  && (IsProcessed(after, d.event.id) <==>
                        Overtaken(db, d) && (d.faults.claimFails || (d.seen == Some(Processing) && d.faults.failureCommitFails))))
            && (response.Duplicate? <==> d.seen == Some(Processed) || (d.seen.None? && d.event.id in db.events))
            && (response.Duplicate? ==> after == db)
            && (IsProcessed(db, d.event.id) && !Overtaken(db, d) ==> after == db && response.Duplicate?)
            && (after.events - {d.event.id} == db.events - {d.event.id})
  {
    HandleKeepsLedger(ClaimedFor(db, d.event.id, d.seen), catalog, d.stripe, d.event, d.now);
  }

  // ---- what a delivery does ----

  /** The customer an event is about: a dispute that names none goes by its charge; no customer is "". */
  predicate IsAbout(e: Event, customer: string) {
    && customer != ""
    && ((e.kind.SubscriptionChange? && e.customer == customer)
        || (e.kind.Dispute? && (e.customer == customer || (e.customer == "" && e.chargeCustomer == customer))))
  }

  /** Nothing goes wrong, and the event is this delivery's to handle. */
  predicate GoesThrough(db: Db, d: Delivery) {
    && d.seen != Some(Processed) && (d.seen.None? ==> d.event.id !in db.events)
    && !d.faults.claimFails && !d.faults.handlerRaises && !d.faults.commitFails
  }

  /** The second transaction of a delivery, about a customer with a row. */
  lemma HandlesARow(db: Db, catalog: Catalog, stripe: Stripe, e: Event, now: Instant, k: nat, customer: string)
    requires UniqueRows(db.rows) && k < |db.rows| && db.rows[k].customerId == Some(customer) && IsAbout(e, customer)
    ensures var h, state := Handle(db, catalog, stripe, e, now), Project(catalog, stripe.Fetch(customer));
            && (h.Done? <==> SubscriptionFree(db.rows, k, state.subscriptionId))
            && (h.Done? ==> h.handled && Followed(db, h.db, e, k, state, now))
  {
    hide Project, Sync, Disputed, Moved;
    DisputedExactly(db, customer, Some(e.id), now);
    var stamped := if e.kind.Dispute? then Disputed(db, customer, Some(e.id), now) else db;
    SyncExactly(stamped, catalog, stripe, customer, k, Some(e.id), e.eventType, now);
    var h := Handle(db, catalog, stripe, e, now);
    if h.Done? {
      assert AuditedOnce(stamped.audits, h.db.audits, db.rows[k], h.db.rows[k], e.eventType, Some(e.id), now);
    }
  }

  /** The row was brought up to what Stripe says, and dated first if that was a dispute; the entries say so;
      no other row moved. */
  ghost predicate Followed(db: Db, later: Db, e: Event, k: nat, state: MirroredState, now: Instant)
    requires k < |db.rows|
  {
    var row := db.rows[k];
    && later.grants == db.grants && |later.rows| == |db.rows| && OnlyRowMoved(db.rows, later.rows, k) && UniqueRows(later.rows)
    && WrittenOn(later.rows[k], if e.kind.Dispute? then row.(disputedAt := Some(now)) else row, state, now)
    && if e.kind.Dispute?
       then exists mid :: AuditedOnce(db.audits, mid, row, row, "charge.dispute.created", Some(e.id), now)
                          && AuditedOnce(mid, later.audits, row, later.rows[k], e.eventType, Some(e.id), now)
       else AuditedOnce(db.audits, later.audits, row, later.rows[k], e.eventType, Some(e.id), now)
  }

  /** Whatever a delivery is about a customer with a row, once committed that row says what Stripe says; and
      it is committed exactly unless something fails or another row is on the same subscription. */
  lemma DeliverySyncs(db: Db, catalog: Catalog, d: Delivery, k: nat, customer: string)
    requires UniqueRows(db.rows) && k < |db.rows| && db.rows[k].customerId == Some(customer) && IsAbout(d.event, customer)
    ensures var (after, response) := Apply(db, catalog, d);
            var state := Project(catalog, d.stripe.Fetch(customer));
            && !response.NotOurs?
            && (response.Handled? <==> GoesThrough(db, d) && SubscriptionFree(db.rows, k, state.subscriptionId))
            && (response.Handled? ==> Followed(db, after, d.event, k, state, d.now))
  {
    hide Project, Handle, AuditedOnce, WrittenOn, OnlyRowMoved;
    HandlesARow(ClaimedFor(db, d.event.id, d.seen), catalog, d.stripe, d.event, d.now, k, customer);
  }

  /** A delivery about a customer without a row: committed, it is answered as handled, whether the customer
      is recorded or not, and it is recorded exactly when it is to be. */
  lemma DeliveryRecords(db: Db, catalog: Catalog, d: Delivery, customer: string)
    requires UniqueRows(db.rows) && IsAbout(d.event, customer)
    requires forall k :: 0 <= k < |db.rows| ==> db.rows[k].customerId != Some(customer)
    ensures var (after, response) := Apply(db, catalog, d);
            && !response.NotOurs?
            && (response.Handled? && !ToBeRecorded(catalog, d.stripe, customer) ==>
                  (after.rows, after.grants, after.audits) == (db.rows, db.grants, db.audits))
            && (response.Handled? && ToBeRecorded(catalog, d.stripe, customer) ==>
                  exists i :: 0 <= i < |after.rows| && OnlyRowMoved(db.rows, after.rows, i)
                              && RecordedOn(db.rows, after.rows, i, customer, d.stripe.users[customer],
                                            Project(catalog, d.stripe.Fetch(customer)), d.now))
            && (response.Handled? <==>
                  GoesThrough(db, d)
                  && (ToBeRecorded(catalog, d.stripe, customer) ==>
                        FreeFor(db.rows, d.stripe.users[customer], Project(catalog, d.stripe.Fetch(customer)).subscriptionId)))
  {
    hide Project, Sync, Disputed, ToBeRecorded, AuditedOnce, RecordedOn, FreeFor;
    var claimed := ClaimedFor(db, d.event.id, d.seen);
    DisputedExactly(claimed, customer, Some(d.event.id), d.now);
    FirstContactExactly(claimed, catalog, d.stripe, customer, Some(d.event.id), d.event.eventType, d.now);
  }

  /** An event of another kind, or about no customer, is noted as processed and touches nothing else. */
  lemma DeliveryIgnores(db: Db, catalog: Catalog, d: Delivery)
    requires forall customer :: !IsAbout(d.event, customer)
    ensures var (after, response) := Apply(db, catalog, d);
            && !response.Handled? && (response.NotOurs? <==> GoesThrough(db, d))
            && (after.rows, after.grants, after.audits) == (db.rows, db.grants, db.audits)
            && (response.NotOurs? ==> IsProcessed(after, d.event.id))
  {
    assert !IsAbout(d.event, d.event.customer) && !IsAbout(d.event, d.event.chargeCustomer);
  }

  lemma OtherEventsStay(db: Db, catalog: Catalog, d: Delivery, id: string)
    requires d.event.id != id
    ensures IsProcessed(Apply(db, catalog, d).0, id) <==> IsProcessed(db, id)
  {
    DeliveryIsAtomic(db, catalog, d);
    var after := Apply(db, catalog, d).0;
    assert id in after.events <==> id in after.events - {d.event.id};
    assert id in db.events <==> id in db.events - {d.event.id};
    assert id in after.events ==> after.events[id] == (after.events - {d.event.id})[id];
    assert id in db.events ==> db.events[id] == (db.events - {d.event.id})[id];
  }

  /** Effects happen exactly once: however often an event is delivered and however many attempts
      fail, it is processed at the end just when exactly one attempt was committed; and there are no more
      commits than that, except one at most for each delivery that was overtaken. */
  lemma {:induction false} EffectsExactlyOnce(db: Db, catalog: Catalog, ds: seq<Delivery>, id: string)
    requires !IsProcessed(db, id)
    ensures var processed := if IsProcessed(Run(db, catalog, ds), id) then 1 else 0;
            && processed <= CommittedCount(db, catalog, ds, id) <= processed + OvertakenCount(db, catalog, ds, id)
            && (OvertakenCount(db, catalog, ds, id) == 0 ==> CommittedCount(db, catalog, ds, id) == processed)
  {
    if ds != [] {
      var init, last := ds[..|ds| - 1], ds[|ds| - 1];
      EffectsExactlyOnce(db, catalog, init, id);
      var before := Run(db, catalog, init);
      if last.event.id == id {
        DeliveryIsAtomic(before, catalog, last);
      } else {
        OtherEventsStay(before, catalog, last, id);
      }
    }
  }

  /** Once processed, any further deliveries of the event that look it up by then change nothing at all. */
  lemma {:induction false} OnceProcessedNothingChanges(db: Db, catalog: Catalog, ds: seq<Delivery>, id: string)
    requires IsProcessed(db, id)
    requires forall k :: 0 <= k < |ds| ==> ds[k].event.id == id && (ds[k].seen.Some? ==> ds[k].seen == Some(Processed))
    ensures Run(db, catalog, ds) == db
  {
    if ds != [] {
      assert forall k :: 0 <= k < |ds| - 1 ==> ds[..|ds| - 1][k] == ds[k];
      OnceProcessedNothingChanges(db, catalog, ds[..|ds| - 1], id);
    }
  }

  /** An overtaken delivery does commit the effects again, with nothing failing: it had read the event as
      failed, and claims it after the retry that processed it. */
  lemma AnOvertakenDeliveryCommitsAgain(db: Db, catalog: Catalog, d: Delivery)
    requires d.event.id in db.events && db.events[d.event.id] == Failed && d.seen == Some(Failed)
    requires !d.faults.claimFails && !d.faults.handlerRaises && !d.faults.commitFails
    requires Handle(ClaimedFor(db, d.event.id, d.seen), catalog, d.stripe, d.event, d.now).Done?
    requires Handle(ClaimedFor(Apply(db, catalog, d).0, d.event.id, d.seen), catalog, d.stripe, d.event, d.now).Done?
    ensures CommittedCount(db, catalog, [d, d], d.event.id) == 2 && OvertakenCount(db, catalog, [d, d], d.event.id) == 1
  {
    hide Handle;
    DeliveryIsAtomic(db, catalog, d);
    assert [d, d][..1] == [d] && [d][..0] == [];
    assert Run(db, catalog, [d]) == Apply(db, catalog, d).0;
    assert CommittedCount(db, catalog, [d], d.event.id) == 1 && OvertakenCount(db, catalog, [d], d.event.id) == 0;
  }
}
