/** The steps of the protocol, taken by one worker with nobody in between, are what the service does in one
    delivery: the two models say the same of the row and of the ledger.
 */
module ProtocolService {
  import opened Models
  import opened Subscriptions
  import SyncProtocol
  import Webhooks

  /** The protocol's state of one customer is what these tables and this Stripe hold of it. */
  ghost predicate Pictures(s: SyncProtocol.State, db: Db, k: nat, stripe: Stripe, customer: string) {
    && k < |db.rows| && db.rows[k].customerId == Some(customer) && s.row == Some(db.rows[k])
    && s.ledger == db.events
    && s.stripe != [] && customer in stripe.subs && s.stripe[|s.stripe| - 1].subs == stripe.subs[customer]
  }

  /** What is projected does not depend on metadata. */
  lemma ProjectsAlike(catalog: Catalog, stripe: Stripe, customer: string)
    requires customer in stripe.subs
    ensures SyncProtocol.Service(catalog).project(stripe.subs[customer]) == Project(catalog, stripe.Fetch(customer))
  {
  }

  /** One delivery about a subscription, of an event that nobody is at work on, in a system at rest. Whatever
      the service does with it, the protocol has steps to do: handled, it ends with the row and the ledger the
      service leaves; failed, with the row as it was and the event failed, or still claimed. And a delivery
      of a processed event has no step to take. */
  lemma OneDeliveryIsTheProtocols(s: SyncProtocol.State, db: Db, catalog: Catalog, d: Webhooks.Delivery, k: nat, customer: string,
                                  w: SyncProtocol.Worker)
    returns (steps: seq<SyncProtocol.Step>, t: SyncProtocol.State)
    requires UniqueRows(db.rows) && Pictures(s, db, k, d.stripe, customer)
    requires d.event.kind.SubscriptionChange? && d.event.customer == customer != "" && d.event.id in s.raised
    requires d.seen == if d.event.id in db.events then Some(db.events[d.event.id]) else None
    requires s.lock.None? && w !in s.workers
    ensures SyncProtocol.Reaches(s, SyncProtocol.Service(catalog), steps, t)
    ensures Pictures(t, Webhooks.Apply(db, catalog, d).0, k, d.stripe, customer)
    ensures t.workers == s.workers && t.lock.None? && t.stripe == s.stripe && t.raised == s.raised
    ensures Webhooks.Apply(db, catalog, d).1.Duplicate? <==> !SyncProtocol.Enabled(s, SyncProtocol.Service(catalog), SyncProtocol.Looks(w, d.event.id))
  {
    hide Webhooks.Apply, SyncProtocol.Apply, SyncProtocol.Enabled, Project, SyncProtocol.Service;
    var provider, e := SyncProtocol.Service(catalog), d.event.id;
    var (after, response) := Webhooks.Apply(db, catalog, d);
    Leaves(db, catalog, d, k, customer);
    LooksAtTheUnprocessed(s, provider, w, e);
    steps, t := [], s;
    if response.Duplicate? || (response.ServerError? && d.faults.claimFails) {
    } else if response.Handled? {
      ProjectsAlike(catalog, d.stripe, customer);
      steps, t := HandlesAlone(s, provider, w, e, d.now);
    } else {
      steps, t := FailsAlone(s, provider, w, e, d.faults.failureCommitFails);
    }
  }

  lemma HandlesAlone(s: SyncProtocol.State, provider: SyncProtocol.Provider, w: SyncProtocol.Worker, e: string, now: Instant)
    returns (steps: seq<SyncProtocol.Step>, t: SyncProtocol.State)
    requires s.stripe != [] && s.row.Some? && s.lock.None?
    requires w !in s.workers && e in s.raised && !SyncProtocol.IsProcessed(s, e)
    ensures SyncProtocol.Reaches(s, provider, steps, t)
    ensures t.row == Some(Written(s.row.value, provider.project(s.stripe[|s.stripe| - 1].subs), now))
    ensures t.ledger == s.ledger[e := Processed] && t.workers == s.workers && t.lock.None?
    ensures t.stripe == s.stripe && t.raised == s.raised
  {
    hide SyncProtocol.Apply, SyncProtocol.Enabled;
    steps, t := ClaimsAlone(s, provider, w, e);
    var more, u := SyncProtocol.DeliversUnderLock(t, provider, w, e, now);
    SyncProtocol.ReachesOn(s, provider, steps, t, more, u);
    steps, t := steps + more, u;
    assert t.workers == s.workers;
  }

  lemma FailsAlone(s: SyncProtocol.State, provider: SyncProtocol.Provider, w: SyncProtocol.Worker, e: string, silently: bool)
    returns (steps: seq<SyncProtocol.Step>, t: SyncProtocol.State)
    requires s.stripe != [] && s.lock.None?
    requires w !in s.workers && e in s.raised && !SyncProtocol.IsProcessed(s, e)
    ensures SyncProtocol.Reaches(s, provider, steps, t)
    ensures t == s.(ledger := s.ledger[e := if silently then Processing else Failed])
  {
    hide SyncProtocol.Apply, SyncProtocol.Enabled;
    steps, t := ClaimsAlone(s, provider, w, e);
    var more, u := EndsBadly(t, provider, w, e, silently);
    SyncProtocol.ReachesOn(s, provider, steps, t, more, u);
    steps, t := steps + more, u;
    assert t.workers == s.workers;
  }

  /** What a delivery that goes by the ledger as it is leaves of a customer with a row. */
  lemma Leaves(db: Db, catalog: Catalog, d: Webhooks.Delivery, k: nat, customer: string)
    requires UniqueRows(db.rows) && k < |db.rows| && db.rows[k].customerId == Some(customer)
    requires Webhooks.IsAbout(d.event, customer) && d.event.kind.SubscriptionChange?
    requires d.seen == if d.event.id in db.events then Some(db.events[d.event.id]) else None
    ensures var (after, response) := Webhooks.Apply(db, catalog, d);
            && k < |after.rows| && after.rows[k].customerId == Some(customer)
            && (response.Duplicate? <==> Webhooks.IsProcessed(db, d.event.id))
            && !response.NotOurs?
            && after.rows[k] == (if response.Handled? then Written(db.rows[k], Project(catalog, d.stripe.Fetch(customer)), d.now)
                                 else db.rows[k])
            && after.events == (if response.Handled? then db.events[d.event.id := Processed]
                                else if response.Duplicate? || d.faults.claimFails then db.events
                                else db.events[d.event.id := if d.faults.failureCommitFails then Processing else Failed])
  {
    hide Project, AuditedOnce, SubscriptionFree, OnlyRowMoved, Sync;
    Webhooks.DeliverySyncs(db, catalog, d, k, customer);
    Webhooks.HandleKeepsLedger(Webhooks.ClaimedFor(db, d.event.id, d.seen), catalog, d.stripe, d.event, d.now);
  }

  lemma LooksAtTheUnprocessed(s: SyncProtocol.State, provider: SyncProtocol.Provider, w: SyncProtocol.Worker, e: string)
    requires w !in s.workers && e in s.raised
    ensures SyncProtocol.Enabled(s, provider, SyncProtocol.Looks(w, e)) <==> !SyncProtocol.IsProcessed(s, e)
  {
  }

  lemma ClaimsAlone(s: SyncProtocol.State, provider: SyncProtocol.Provider, w: SyncProtocol.Worker, e: string)
    returns (steps: seq<SyncProtocol.Step>, t: SyncProtocol.State)
    requires s.stripe != [] && w !in s.workers && e in s.raised && !SyncProtocol.IsProcessed(s, e)
    ensures SyncProtocol.Reaches(s, provider, steps, t)
    ensures t == s.(ledger := s.ledger[e := Processing], workers := s.workers[w := SyncProtocol.Starting(Some(e))])
  {
    steps := [SyncProtocol.Looks(w, e)] + [SyncProtocol.Claims(w)];
    t := SyncProtocol.Apply(SyncProtocol.Apply(s, provider, SyncProtocol.Looks(w, e)), provider, SyncProtocol.Claims(w));
    SyncProtocol.TwoSteps(s, provider, SyncProtocol.Looks(w, e), SyncProtocol.Claims(w));
  }

  /** A failure is recorded, or not even that. */
  lemma EndsBadly(s: SyncProtocol.State, provider: SyncProtocol.Provider, w: SyncProtocol.Worker, e: string, silently: bool)
    returns (steps: seq<SyncProtocol.Step>, t: SyncProtocol.State)
    requires s.stripe != [] && s.lock.None? && w in s.workers && s.workers[w] == SyncProtocol.Starting(Some(e))
    ensures SyncProtocol.Reaches(s, provider, steps, t)
    ensures t == s.(ledger := if silently then s.ledger else s.ledger[e := Failed], workers := s.workers - {w})
  {
    if silently {
      steps, t := [SyncProtocol.Dies(w)], SyncProtocol.Apply(s, provider, SyncProtocol.Dies(w));
      SyncProtocol.One(s, provider, SyncProtocol.Dies(w));
    } else {
      steps := [SyncProtocol.Fails(w)] + [SyncProtocol.RecordsFailure(w)];
      t := SyncProtocol.Apply(SyncProtocol.Apply(s, provider, SyncProtocol.Fails(w)), provider, SyncProtocol.RecordsFailure(w));
      SyncProtocol.TwoSteps(s, provider, SyncProtocol.Fails(w), SyncProtocol.RecordsFailure(w));
    }
  }
}
