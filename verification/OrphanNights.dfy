/** The orphan email over many nights: told once, and nobody forgotten.

    Between two nights anything may happen to the tables, to the accounts and to what Stripe lists. The
    two marks in Stripe's metadata are written by this job alone.
 */
module OrphanNights {
  import opened Models
  import opened Subscriptions
  import opened Reconcile
  import opened StripeAccount
  import Billing

  /** One night. `listed` is parsed with the metadata Stripe holds as the night begins. */
  datatype Night = Night(
    db: Db,
    subs: map<string, seq<Billing.RawSubscription>>,
    users: map<string, string>,
    listed: seq<Billing.RawSubscription>,
    env: Env,
    turns: seq<Turn>,
    notifier: Notifier,
    sentAt: Stamp)

  predicate Proper(n: Night) {
    && |n.turns| == |n.listed| && !n.env.dryRun
    && (forall i, j :: 0 <= i < j < |n.listed| ==> n.listed[i].id != n.listed[j].id)
  }

  function Listing(n: Night, store: Billing.Metadata): seq<RemoteSubscription> {
    seq(|n.listed|, i requires 0 <= i < |n.listed| => Billing.Parse(n.listed[i], store))
  }

  function Before(n: Night, store: Billing.Metadata, k: nat): Pass
    requires Proper(n) && k <= |n.listed|
  {
    VisitAll(Started(n.db, Stripe(n.subs, n.users, store)), n.env, Listing(n, store), n.turns, k)
  }

  /** The whole walk, then the email. */
  function Walked(n: Night, store: Billing.Metadata): Pass
    requires Proper(n)
  {
    Before(n, store, |n.listed|)
  }

  function Mailed(n: Night, store: Billing.Metadata): (Report, Stripe, seq<seq<string>>)
    requires Proper(n)
  {
    var p := Walked(n, store);
    Notified(p.report, p.stripe, n.notifier, n.sentAt)
  }

  function Pending(n: Night, store: Billing.Metadata): seq<string>
    requires Proper(n)
  {
    PendingIds(Walked(n, store).report.orphaned)
  }

  /** What is remembered of the nights: Stripe's metadata, and for each subscription how many accepted
      emails have listed it since its marks were last taken off. */
  datatype Memory = Memory(store: Billing.Metadata, told: map<string, nat>)

  function ToldTimes(m: Memory, id: string): nat {
    if id in m.told then m.told[id] else 0
  }

  function Emailed(n: Night, store: Billing.Metadata): set<string>
    requires Proper(n)
  {
    if n.notifier.Accepts? then set id | id in Pending(n, store) else {}
  }

  function After(m: Memory, n: Night): Memory
    requires Proper(n)
  {
    var kept := m.told - Walked(n, m.store).cleared;
    var emailed := Emailed(n, m.store);
    Memory(Mailed(n, m.store).1.metadata,
           kept + map id | id in emailed :: (if id in kept then kept[id] else 0) + 1)
  }

  function Nights(ns: seq<Night>): Memory
    requires forall i :: 0 <= i < |ns| ==> Proper(ns[i])
  {
    if ns == [] then Memory(map[], map[]) else After(Nights(ns[..|ns| - 1]), ns[|ns| - 1])
  }

  /** The notified mark, as Stripe holds it. */
  predicate IsNotified(store: Billing.Metadata, id: string) {
    id in store && NOTIFIED_AT in store[id] && store[id][NOTIFIED_AT] != ""
  }

  // ---- one night ----

  /** Setting metadata on one subscription leaves the others' alone. */
  lemma OthersKeepTheirs(stripe: Stripe, id: string, changes: map<string, string>, other: string)
    ensures var after := SetMetadata(stripe, id, changes).metadata;
            && (other != id ==> (other in after <==> other in stripe.metadata)
                                && (other in after ==> after[other] == stripe.metadata[other]))
            && (NOTIFIED_AT !in changes ==> (IsNotified(after, id) <==> IsNotified(stripe.metadata, id)))
            && (NOTIFIED_AT in changes ==> (IsNotified(after, id) <==> changes[NOTIFIED_AT] != ""))
  {
  }

  /** What one check writes to its own subscription's marks, and what it adds to the report. */
  lemma CheckMarks(r: Report, db: Db, stripe: Stripe, env: Env, remote: RemoteSubscription, customer: string, turn: Turn)
    ensures var c := Check(r, db, stripe, env, remote, customer, turn);
            && (c.cleared ==> c.stripe == SetMetadata(stripe, remote.id, NO_MARKS) && c.report.orphaned == r.orphaned)
            && (!c.cleared ==> c.stripe == stripe || c.stripe == SetMetadata(stripe, remote.id, map[ORPHANED_AT := turn.stamp]))
            && (c.report.notified, c.report.unnotified) == (r.notified, r.unnotified)
            && (if c.outcome.Orphaned?
                then |c.report.orphaned| > 0
                     && c.report.orphaned == r.orphaned + [c.report.orphaned[|c.report.orphaned| - 1]]
                     && IsEntryOf(c.report.orphaned[|c.report.orphaned| - 1], remote)
                else c.report.orphaned == r.orphaned)
  {
  }

  predicate IsEntryOf(o: Orphan, remote: RemoteSubscription) {
    o.subscriptionId == remote.id && o.notifiedAt == Mark(remote, NOTIFIED_AT)
  }

  lemma CheckNotifies(r: Report, db: Db, stripe: Stripe, env: Env, remote: RemoteSubscription, customer: string, turn: Turn, id: string)
    ensures var c := Check(r, db, stripe, env, remote, customer, turn);
            IsNotified(c.stripe.metadata, id) <==> IsNotified(stripe.metadata, id) && !(c.cleared && id == remote.id)
  {
    CheckMarks(r, db, stripe, env, remote, customer, turn);
    OthersKeepTheirs(stripe, remote.id, NO_MARKS, id);
    OthersKeepTheirs(stripe, remote.id, map[ORPHANED_AT := turn.stamp], id);
  }

  /** A predicate of what one more subscription adds to the orphans listed and the marks taken off. */
  predicate Adds(p: Pass, q: Pass, remote: RemoteSubscription, orphaned: bool, cleared: bool) {
    && q.cleared == p.cleared + (if cleared then {remote.id} else {})
    && (q.report.notified, q.report.unnotified) == (p.report.notified, p.report.unnotified)
    && (!orphaned ==> q.report.orphaned == p.report.orphaned)
    && (orphaned ==> |q.report.orphaned| > 0 && !cleared
                     && q.report.orphaned == p.report.orphaned + [q.report.orphaned[|q.report.orphaned| - 1]]
                     && IsEntryOf(q.report.orphaned[|q.report.orphaned| - 1], remote))
  }

  lemma ConclusionKeepsLists(p: Pass, env: Env, id: string, customer: string, c: Checked, r: SyncResult, fault: Fault)
    ensures var q := Concluded(p, env, id, customer, c, r, fault);
            && q.stripe == c.stripe && q.cleared == p.cleared + (if c.cleared then {id} else {})
            && (q.report.orphaned, q.report.notified, q.report.unnotified)
               == (c.report.orphaned, c.report.notified, c.report.unnotified)
  {
  }

  /** A visit takes off exactly the marks it reports cleared, and lists one orphan or none. */
  lemma VisitAdds(p: Pass, env: Env, remote: RemoteSubscription, turn: Turn, id: string)
    returns (cleared: bool)
    ensures var q := Visit(p, env, remote, turn);
            && Adds(p, q, remote, OutcomeOf(p, env, remote, turn).Orphaned?, cleared)
            && (IsNotified(q.stripe.metadata, id) <==> IsNotified(p.stripe.metadata, id) && !(cleared && id == remote.id))
  {
    hide Check, Sync, Concluded;
    cleared := false;
    if NamesCustomer(remote) {
      var c, customer := CheckIn(p, env, remote, turn), remote.customerId.value;
      CheckMarks(p.report.(checked := p.report.checked + 1), p.db, p.stripe, env, remote, customer, turn);
      CheckNotifies(p.report.(checked := p.report.checked + 1), p.db, p.stripe, env, remote, customer, turn, id);
      ConclusionKeepsLists(p, env, remote.id, customer, c, Repaired(p.db, c.stripe, env, customer, c.outcome, turn), turn.fault);
      cleared := c.cleared;
    }
  }

  predicate Seen(n: Night, k: nat, id: string)
    requires k <= |n.listed|
  {
    exists j :: 0 <= j < k && n.listed[j].id == id
  }

  /** As far as one subscription goes: its notified mark is the one the night began with, unless it was
      taken off; and it is listed as an orphan only with its mark as the night began, and kept. */
  ghost predicate WalkOk(p: Pass, n: Night, store: Billing.Metadata, k: nat, id: string)
    requires k <= |n.listed|
  {
    && (IsNotified(p.stripe.metadata, id) <==> IsNotified(store, id) && id !in p.cleared)
    && (id in p.cleared ==> Seen(n, k, id))
    && p.report.notified == [] && p.report.unnotified == []
    && (forall o :: o in p.report.orphaned && o.subscriptionId == id ==>
          Seen(n, k, id) && id !in p.cleared && (o.notifiedAt.None? <==> !IsNotified(store, id)))
  }

  lemma WalkStarts(n: Night, store: Billing.Metadata, id: string)
    requires Proper(n)
    ensures WalkOk(Before(n, store, 0), n, store, 0, id)
  {
  }

  lemma OneVisitMore(n: Night, store: Billing.Metadata, k: nat)
    requires Proper(n) && 0 < k <= |n.listed|
    ensures Before(n, store, k) == Visit(Before(n, store, k - 1), n.env, Listing(n, store)[k - 1], n.turns[k - 1])
  {
  }

  lemma WalkStep(p: Pass, q: Pass, n: Night, store: Billing.Metadata, k: nat, id: string)
    requires Proper(n) && k < |n.listed| && WalkOk(p, n, store, k, id)
    requires q == Visit(p, n.env, Listing(n, store)[k], n.turns[k])
    ensures WalkOk(q, n, store, k + 1, id)
  {
    var remote := Listing(n, store)[k];
    var cleared := VisitAdds(p, n.env, remote, n.turns[k], id);
    assert remote.id == id ==> (Mark(remote, NOTIFIED_AT).None? <==> !IsNotified(store, id));
    if Seen(n, k, id) {
      var j :| 0 <= j < k && n.listed[j].id == id;
      assert n.listed[j].id != remote.id;
    }
    assert Seen(n, k, id) || id == remote.id <==> Seen(n, k + 1, id);
  }

  lemma WalkGoesOn(n: Night, store: Billing.Metadata, k: nat, id: string)
    requires Proper(n) && k < |n.listed| && WalkOk(Before(n, store, k), n, store, k, id)
    ensures WalkOk(Before(n, store, k + 1), n, store, k + 1, id)
  {
    OneVisitMore(n, store, k + 1);
    WalkStep(Before(n, store, k), Before(n, store, k + 1), n, store, k, id);
  }

  lemma {:induction false} WalkKeeps(n: Night, store: Billing.Metadata, k: nat, id: string)
    requires Proper(n) && k <= |n.listed|
    ensures WalkOk(Before(n, store, k), n, store, k, id)
  {
    if k == 0 {
      WalkStarts(n, store, id);
    } else {
      WalkKeeps(n, store, k - 1, id);
      WalkGoesOn(n, store, k - 1, id);
    }
  }

  lemma {:induction false} PendingAreUnmarked(orphans: seq<Orphan>, id: string)
    ensures id in PendingIds(orphans) <==> exists o :: o in orphans && o.subscriptionId == id && o.notifiedAt.None?
  {
    if orphans != [] {
      var init, last := orphans[..|orphans| - 1], orphans[|orphans| - 1];
      PendingAreUnmarked(init, id);
      assert orphans == init + [last];
    }
  }

  lemma {:induction false} MarkingNotifies(stripe: Stripe, ids: seq<string>, failing: set<string>, sentAt: Stamp, id: string)
    ensures IsNotified(MarkNotified(stripe, ids, failing, sentAt).metadata, id)
            <==> IsNotified(stripe.metadata, id) || (id in ids && id !in failing)
  {
    if ids != [] {
      var init, last := ids[..|ids| - 1], ids[|ids| - 1];
      MarkingNotifies(stripe, init, failing, sentAt, id);
      OthersKeepTheirs(MarkNotified(stripe, init, failing, sentAt), last, map[NOTIFIED_AT := sentAt], id);
      assert ids == init + [last];
    }
  }

  /** One night, for one subscription: it is emailed about only if it carried no mark, and its marks are
      not taken off the same night; and the mark is there afterwards if it was kept or was just set. */
  lemma NightIs(m: Memory, n: Night, id: string)
    requires Proper(n)
    ensures var cleared, emailed, later := Walked(n, m.store).cleared, Emailed(n, m.store), After(m, n);
            && (id in emailed ==> !IsNotified(m.store, id) && id !in cleared)
            && ToldTimes(later, id) == (if id in cleared then 0 else ToldTimes(m, id)) + (if id in emailed then 1 else 0)
            && (IsNotified(later.store, id) <==>
                  || (IsNotified(m.store, id) && id !in cleared)
                  || (id in emailed && id !in n.notifier.marksFailing))
  {
    var p := Walked(n, m.store);
    WalkKeeps(n, m.store, |n.listed|, id);
    PendingAreUnmarked(p.report.orphaned, id);
    if n.notifier.Accepts? {
      MarkingNotifies(p.stripe, Pending(n, m.store), n.notifier.marksFailing, n.sentAt, id);
    }
  }

  // ---- many nights ----

  ghost predicate AllProper(ns: seq<Night>) {
    forall i :: 0 <= i < |ns| ==> Proper(ns[i])
  }

  /** Nobody is marked as told who was not: a subscription carries the notified mark only if an accepted
      email has listed it since its marks were last taken off. */
  lemma {:induction false} MarkedMeansTold(ns: seq<Night>, id: string)
    requires AllProper(ns)
    ensures IsNotified(Nights(ns).store, id) ==> ToldTimes(Nights(ns), id) >= 1
  {
    if ns != [] {
      var init := ns[..|ns| - 1];
      assert forall i :: 0 <= i < |init| ==> init[i] == ns[i];
      MarkedMeansTold(init, id);
      NightIs(Nights(init), ns[|ns| - 1], id);
    }
  }

  /** Setting the notified mark never fails. */
  ghost predicate MarksStick(ns: seq<Night>) {
    forall i :: 0 <= i < |ns| && ns[i].notifier.Accepts? ==> ns[i].notifier.marksFailing == {}
  }

  /** Nobody is told twice: if the marks can be written, at most one accepted email lists a subscription
      until its marks are taken off, and it carries the mark from then on. */
  lemma {:induction false} ToldAtMostOnce(ns: seq<Night>, id: string)
    requires AllProper(ns) && MarksStick(ns)
    ensures ToldTimes(Nights(ns), id) == if IsNotified(Nights(ns).store, id) then 1 else 0
  {
    if ns != [] {
      var init := ns[..|ns| - 1];
      assert forall i :: 0 <= i < |init| ==> init[i] == ns[i];
      ToldAtMostOnce(init, id);
      NightIs(Nights(init), ns[|ns| - 1], id);
    }
  }

  lemma NextAdds(n: Night, store: Billing.Metadata, k: nat) returns (cleared: bool)
    requires Proper(n) && k < |n.listed|
    ensures Adds(Before(n, store, k), Before(n, store, k + 1), Listing(n, store)[k],
                 OutcomeOf(Before(n, store, k), n.env, Listing(n, store)[k], n.turns[k]).Orphaned?, cleared)
  {
    OneVisitMore(n, store, k + 1);
    cleared := VisitAdds(Before(n, store, k), n.env, Listing(n, store)[k], n.turns[k], "");
  }

  predicate Lists(p: Pass, o: Orphan) {
    o in p.report.orphaned
  }

  lemma ListedGoesOn(n: Night, store: Billing.Metadata, k: nat, o: Orphan)
    requires Proper(n) && k < |n.listed| && Lists(Before(n, store, k), o)
    ensures Lists(Before(n, store, k + 1), o)
  {
    var cleared := NextAdds(n, store, k);
  }

  /** The entry a visit adds stays listed for the rest of the night. */
  lemma {:induction false} ListedStays(n: Night, store: Billing.Metadata, k: nat, later: nat, o: Orphan)
    requires Proper(n) && k <= later <= |n.listed| && Lists(Before(n, store, k), o)
    ensures Lists(Before(n, store, later), o)
  {
    if k < later {
      ListedStays(n, store, k, later - 1, o);
      ListedGoesOn(n, store, later - 1, o);
    }
  }

  lemma OrphanIsListed(n: Night, store: Billing.Metadata, k: nat) returns (o: Orphan)
    requires Proper(n) && k < |n.listed|
    requires OutcomeOf(Before(n, store, k), n.env, Listing(n, store)[k], n.turns[k]).Orphaned?
    ensures o in Walked(n, store).report.orphaned && o.subscriptionId == n.listed[k].id
  {
    var cleared := NextAdds(n, store, k);
    var orphaned := Before(n, store, k + 1).report.orphaned;
    o := orphaned[|orphaned| - 1];
    ListedStays(n, store, k + 1, |n.listed|, o);
  }

  lemma EmailSettles(n: Night, store: Billing.Metadata)
    requires Proper(n)
    ensures var (report, _, emails) := Mailed(n, store);
            && report.notified == (if n.notifier.Accepts? then Pending(n, store) else [])
            && report.unnotified == (if n.notifier.Accepts? then [] else Pending(n, store))
            && emails == (if report.notified == [] then [] else [report.notified])
  {
    WalkKeeps(n, store, |n.listed|, "");
  }

  /** The walk found this one to be an orphan. */
  predicate FoundOrphaned(n: Night, store: Billing.Metadata, k: nat)
    requires Proper(n) && k < |n.listed|
  {
    OutcomeOf(Before(n, store, k), n.env, Listing(n, store)[k], n.turns[k]).Orphaned?
  }

  lemma UnmarkedIsPending(n: Night, store: Billing.Metadata, k: nat)
    requires Proper(n) && k < |n.listed| && FoundOrphaned(n, store, k) && !IsNotified(store, n.listed[k].id)
    ensures n.listed[k].id in Pending(n, store)
  {
    WalkKeeps(n, store, |n.listed|, n.listed[k].id);
    var o := OrphanIsListed(n, store, k);
    PendingAreUnmarked(Walked(n, store).report.orphaned, n.listed[k].id);
  }

  /** Nobody is forgotten: whoever is found an orphan and has not been told since the marks were last
      taken off is in tonight's email, or listed as still needing one; and the two lists between them
      hold exactly the pending orphans. */
  lemma NobodyForgotten(ns: seq<Night>, n: Night, k: nat)
    requires AllProper(ns) && Proper(n) && k < |n.listed|
    ensures var m := Nights(ns);
            var (report, _, emails) := Mailed(n, m.store);
            && report.notified + report.unnotified == Pending(n, m.store)
            && (ToldTimes(m, n.listed[k].id) == 0 && FoundOrphaned(n, m.store, k) ==>
                  && n.listed[k].id in report.notified + report.unnotified
                  && (n.notifier.Accepts? <==> n.listed[k].id in report.notified)
                  && (n.notifier.Accepts? ==> emails == [report.notified]))
  {
    var m, id := Nights(ns), n.listed[k].id;
    MarkedMeansTold(ns, id);
    EmailSettles(n, m.store);
    if ToldTimes(m, id) == 0 && FoundOrphaned(n, m.store, k) {
      UnmarkedIsPending(n, m.store, k);
    }
  }
}
