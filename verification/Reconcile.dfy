/** The nightly walk over every subscription in Stripe: app/jobs/reconcile.py.

    `Visit` says on plain values what the run does with one listed subscription, `VisitAll` with a
    list of them, and `Notified` what the email afterwards changes. `Reconcile` pages through Stripe
    and does it in place. Stripe's subscriptions stand still for the length of a run; its metadata is
    what the run itself writes.
 */
module Reconcile {
  import opened Models
  import opened Cache
  import opened Sessions
  import opened StripeAccount
  import opened Subscriptions

  const NOTIFIED_AT := "orphan_notified_at"
  const USER_ID := "user_id"

  /** What goes wrong while one subscription is handled. */
  datatype Fault =
    | NoFault
    | LooksUpNothing       // the row, the customer or the account cannot be read
    | MetadataFails
    | SyncRaises
    | CommitFails

  /** A mark is the text of an instant, which is never empty. */
  type Stamp = s: string | s != "" witness "now"

  /** One item's moment: the clock, its text as a mark, and what fails. */
  datatype Turn = Turn(now: Instant, stamp: Stamp, fault: Fault)

  /** `gone` is what the account directory answers; a user missing from it is one it cannot tell. */
  datatype Env = Env(catalog: Catalog, gone: map<string, bool>, dryRun: bool)

  datatype Orphan = Orphan(
    userId: string,
    customerId: string,
    subscriptionId: string,
    status: string,
    cancelAtPeriodEnd: bool,
    orphanedAt: Option<string>,
    notifiedAt: Option<string>)

  datatype Detail = Detail(
    userId: string,
    customerId: string,
    localTier: Tier,
    localStatus: Status,
    stripeTier: Tier,
    stripeStatus: string)

  datatype Report = Report(
    checked: nat,
    mismatched: nat,
    repaired: nat,
    failed: seq<string>,
    ignored: nat,
    unknownCustomers: seq<string>,
    details: seq<Detail>,
    orphaned: seq<Orphan>,
    orphanedClosed: nat,
    notified: seq<string>,
    unnotified: seq<string>)

  const EMPTY_REPORT := Report(0, 0, 0, [], 0, [], [], [], 0, [], [])

  // ---- marks ----

  const NO_MARKS: map<string, string> := map[ORPHANED_AT := "", NOTIFIED_AT := ""]

  function Mark(remote: RemoteSubscription, key: string): Option<string> {
    if HasMetadata(remote, key) then Some(remote.metadata[key]) else None
  }

  // ---- what becomes of one subscription ----

  datatype Outcome =
    | NoCustomer
    | NotClassified
    | Ignoring
    | Orphaned
    | OrphanedClosed
    | Unknown
    | Mismatched
    | Agreeing

  function LocalRow(db: Db, customer: string): Option<Row> {
    RowOf(db.rows, customer)
  }

  /** The user a subscription belongs to: its row's, else the one stamped on it, else the customer's. */
  function OwnerOf(db: Db, stripe: Stripe, remote: RemoteSubscription, customer: string): Option<string> {
    match LocalRow(db, customer)
    case Some(row) => Some(row.userId)
    case None => if HasMetadata(remote, USER_ID) then Some(remote.metadata[USER_ID]) else stripe.UserOf(customer)
  }

  function Gone(db: Db, stripe: Stripe, env: Env, remote: RemoteSubscription, customer: string): Option<bool> {
    var user := OwnerOf(db, stripe, remote, customer);
    if user.Some? && user.value != "" && user.value in env.gone then Some(env.gone[user.value]) else None
  }

  /** The two fields that decide access. */
  predicate Agrees(row: Row, state: MirroredState) {
    row.mirror.tier == state.tier && row.mirror.status == state.status
  }

  /** One of ours, whose account is not known to be gone, against the row of its customer. */
  function Compared(env: Env, remote: RemoteSubscription, local: Option<Row>): Outcome {
    if local.None? then Unknown
    else if Agrees(local.value, Project(env.catalog, Some(remote))) then Agreeing
    else Mismatched
  }

  function Tallied(r: Report, env: Env, remote: RemoteSubscription, customer: string, local: Option<Row>): Report {
    match Compared(env, remote, local)
    case Unknown => r.(unknownCustomers := r.unknownCustomers + [customer])
    case Mismatched =>
      r.(mismatched := r.mismatched + 1,
         details := r.details + [
           Detail(local.value.userId, customer, local.value.mirror.tier, local.value.mirror.status,
                  Project(env.catalog, Some(remote)).tier, remote.providerStatus)])
    case _ => r
  }

  /** What the check of one subscription found, with its metadata in Stripe and the report afterwards. */
  datatype Checked = Checked(outcome: Outcome, stripe: Stripe, cleared: bool, report: Report)

  /** An account that is gone. One that has ended is only counted; a new one is marked in Stripe. */
  function Recorded(r: Report, stripe: Stripe, dryRun: bool, remote: RemoteSubscription, customer: string,
                    userId: string, turn: Turn): Checked {
    var stamps := !dryRun && Mark(remote, ORPHANED_AT).None?;
    if remote.ended then Checked(OrphanedClosed, stripe, false, r.(orphanedClosed := r.orphanedClosed + 1))
    else if stamps && turn.fault.MetadataFails? then Checked(NotClassified, stripe, false, r)
    else
      Checked(
        Orphaned,
        if stamps then SetMetadata(stripe, remote.id, map[ORPHANED_AT := turn.stamp]) else stripe,
        false,
        r.(orphaned := r.orphaned + [
             Orphan(userId, customer, remote.id, remote.providerStatus, remote.cancelAtPeriodEnd,
                    if stamps then Some(turn.stamp) else Mark(remote, ORPHANED_AT), Mark(remote, NOTIFIED_AT))]))
  }

  predicate Marked(remote: RemoteSubscription) {
    Mark(remote, ORPHANED_AT).Some? || Mark(remote, NOTIFIED_AT).Some?
  }

  /** The check up to the repair. */
  function Check(r: Report, db: Db, stripe: Stripe, env: Env, remote: RemoteSubscription, customer: string, turn: Turn): Checked {
    var local, gone := LocalRow(db, customer), Gone(db, stripe, env, remote, customer);
    if turn.fault.LooksUpNothing? then Checked(NotClassified, stripe, false, r)
    else if local.None? && !BelongsToThisService(env.catalog, Some(remote))
    then Checked(Ignoring, stripe, false, r.(ignored := r.ignored + 1))
    else if gone == Some(true)
    then Recorded(r, stripe, env.dryRun, remote, customer, OwnerOf(db, stripe, remote, customer).value, turn)
    else
      var clears := gone == Some(false) && Marked(remote) && !env.dryRun;
      if clears && turn.fault.MetadataFails? then Checked(NotClassified, stripe, false, r)
      else
        Checked(Compared(env, remote, local),
                if clears then SetMetadata(stripe, remote.id, NO_MARKS) else stripe,
                clears,
                Tallied(r, env, remote, customer, local))
  }

  predicate Repairs(env: Env, o: Outcome) {
    !env.dryRun && (o.Unknown? || o.Mismatched?)
  }

  function Reason(o: Outcome): string {
    if o.Unknown? then "reconcile.unknown_customer" else "reconcile.drift"
  }

  /** The sync that repairs it, if it is to be repaired; one that raises, for whatever reason, is an
      IntegrityError here. */
  function Repaired(db: Db, stripe: Stripe, env: Env, customer: string, o: Outcome, turn: Turn): SyncResult {
    if !Repairs(env, o) then Ignored
    else if turn.fault.SyncRaises? then IntegrityError
    else Sync(db, env.catalog, stripe, customer, None, Reason(o), turn.now)
  }

  /** Everything a run has changed so far. `cleared` collects the subscriptions whose marks it took off. */
  datatype Pass = Pass(db: Db, stripe: Stripe, drained: set<string>, cleared: set<string>, report: Report)

  predicate NamesCustomer(remote: RemoteSubscription) {
    remote.customerId.Some? && remote.customerId.value != ""
  }

  function CheckIn(p: Pass, env: Env, remote: RemoteSubscription, turn: Turn): Checked
    requires NamesCustomer(remote)
  {
    Check(p.report.(checked := p.report.checked + 1), p.db, p.stripe, env, remote, remote.customerId.value, turn)
  }

  /** The end of one check, given what it found and what the repair came to: everything lands, or the
      tables are as before and only this one failed. It counts as repaired only once it landed. */
  function Concluded(p: Pass, env: Env, id: string, customer: string, c: Checked, r: SyncResult, fault: Fault): Pass {
    var q := p.(stripe := c.stripe, cleared := p.cleared + if c.cleared then {id} else {}, report := c.report);
    if c.outcome.NotClassified? || r.IntegrityError? || (fault.CommitFails? && !env.dryRun)
    then q.(report := c.report.(failed := c.report.failed + [customer]))
    else
      var done := if Repairs(env, c.outcome) then q.(report := c.report.(repaired := c.report.repaired + 1)) else q;
      if r.Ignored? then done else done.(db := r.db, drained := p.drained + r.marks)
  }

  /** The run after one more subscription. A failure costs only this one: what it wrote to the tables
      is undone, what it wrote to Stripe and to the report stays. */
  function Visit(p: Pass, env: Env, remote: RemoteSubscription, turn: Turn): Pass {
    if !NamesCustomer(remote) then p.(report := p.report.(checked := p.report.checked + 1))
    else
      var c := CheckIn(p, env, remote, turn);
      Concluded(p, env, remote.id, remote.customerId.value, c,
                Repaired(p.db, c.stripe, env, remote.customerId.value, c.outcome, turn), turn.fault)
  }

  /** What one more subscription turns out to be. */
  function OutcomeOf(p: Pass, env: Env, remote: RemoteSubscription, turn: Turn): Outcome {
    if NamesCustomer(remote) then CheckIn(p, env, remote, turn).outcome else NoCustomer
  }

  function VisitAll(p: Pass, env: Env, listing: seq<RemoteSubscription>, turns: seq<Turn>, n: nat): Pass
    requires n <= |listing| == |turns|
  {
    if n == 0 then p else Visit(VisitAll(p, env, listing, turns, n - 1), env, listing[n - 1], turns[n - 1])
  }

  function Started(db: Db, stripe: Stripe): Pass {
    Pass(db, stripe, {}, {}, EMPTY_REPORT)
  }

  // ---- the email ----

  datatype Notifier = NotConfigured | Rejects | Accepts(marksFailing: set<string>)

  function PendingIds(orphans: seq<Orphan>): seq<string> {
    if orphans == [] then []
    else
      PendingIds(orphans[..|orphans| - 1])
      + if orphans[|orphans| - 1].notifiedAt.None? then [orphans[|orphans| - 1].subscriptionId] else []
  }

  function MarkNotified(stripe: Stripe, ids: seq<string>, failing: set<string>, sentAt: Stamp): Stripe {
    if ids == [] then stripe
    else
      var before, id := MarkNotified(stripe, ids[..|ids| - 1], failing, sentAt), ids[|ids| - 1];
      if id in failing then before else SetMetadata(before, id, map[NOTIFIED_AT := sentAt])
  }

  function Told(orphan: Orphan, sentAt: Stamp): Orphan {
    if orphan.notifiedAt.None? then orphan.(notifiedAt := Some(sentAt)) else orphan
  }

  function Stamped(orphans: seq<Orphan>, sentAt: Stamp): seq<Orphan> {
    seq(|orphans|, i requires 0 <= i < |orphans| => Told(orphans[i], sentAt))
  }

  /** One email lists every orphan not yet emailed about; the mark goes on after it is accepted. The
      last component is the emails that were accepted. */
  function Notified(report: Report, stripe: Stripe, notifier: Notifier, sentAt: Stamp): (Report, Stripe, seq<seq<string>>) {
    var ids := PendingIds(report.orphaned);
    if ids == [] then (report, stripe, [])
    else if !notifier.Accepts? then (report.(unnotified := ids), stripe, [])
    else
      (report.(orphaned := Stamped(report.orphaned, sentAt), notified := report.notified + ids),
       MarkNotified(stripe, ids, notifier.marksFailing, sentAt),
       [ids])
  }

  lemma OneMorePending(all: seq<Orphan>, i: nat, sentAt: Stamp)
    requires i < |all|
    ensures PendingIds(all[..i + 1])
            == if all[i].notifiedAt.None? then PendingIds(all[..i]) + [all[i].subscriptionId] else PendingIds(all[..i])
    ensures Stamped(all[..i + 1], sentAt) == Stamped(all[..i], sentAt) + [Told(all[i], sentAt)]
  {
    assert all[..i + 1][..i] == all[..i];
  }

  lemma OneMoreMarked(stripe: Stripe, ids: seq<string>, id: string, failing: set<string>, sentAt: Stamp)
    ensures var before := MarkNotified(stripe, ids, failing, sentAt);
            MarkNotified(stripe, ids + [id], failing, sentAt)
            == if id in failing then before else SetMetadata(before, id, map[NOTIFIED_AT := sentAt])
  {
    assert (ids + [id])[..|ids|] == ids;
  }

  // ---- in place ----

  class ReconcileReport {
    var checked: nat
    var mismatched: nat
    var repaired: nat
    var failed: seq<string>
    var ignored: nat
    var unknownCustomers: seq<string>
    var details: seq<Detail>
    var orphaned: seq<Orphan>
    var orphanedClosed: nat
    var notified: seq<string>
    var unnotified: seq<string>

    function Value(): Report
      reads this
    {
      Report(checked, mismatched, repaired, failed, ignored, unknownCustomers, details, orphaned,
             orphanedClosed, notified, unnotified)
    }

    constructor ()
      ensures Value() == EMPTY_REPORT
    {
      checked, mismatched, repaired, failed, ignored := 0, 0, 0, [], 0;
      unknownCustomers, details, orphaned, orphanedClosed, notified, unnotified := [], [], [], 0, [], [];
    }

    method RecordOrphan(account: Account, remote: RemoteSubscription, customer: string, userId: string,
                        dryRun: bool, turn: Turn)
      returns (raised: bool)
      modifies this`orphaned, this`orphanedClosed, account
      ensures var c := Recorded(old(Value()), old(account.state), dryRun, remote, customer, userId, turn);
              raised == c.outcome.NotClassified? && (account.state, Value()) == (c.stripe, c.report)
    {
      if remote.ended {
        orphanedClosed := orphanedClosed + 1;
        return false;
      }
      var orphanedAt := Mark(remote, ORPHANED_AT);
      if orphanedAt.None? && !dryRun {
        raised := account.SetSubscriptionMetadata(remote.id, map[ORPHANED_AT := turn.stamp], turn.fault.MetadataFails?);
        if raised {
          return true;
        }
        orphanedAt := Some(turn.stamp);
      }
      orphaned := orphaned + [Orphan(userId, customer, remote.id, remote.providerStatus, remote.cancelAtPeriodEnd,
                                     orphanedAt, Mark(remote, NOTIFIED_AT))];
      return false;
    }

    /** Marks in Stripe, one by one, everyone the email listed. A mark that fails is only left off. */
    method MarkPending(account: Account, failing: set<string>, sentAt: Stamp)
      modifies this`orphaned, this`notified, account
      ensures orphaned == Stamped(old(orphaned), sentAt)
      ensures notified == old(notified) + PendingIds(old(orphaned))
      ensures account.state == MarkNotified(old(account.state), PendingIds(old(orphaned)), failing, sentAt)
    {
      ghost var start, before := account.state, notified;
      var told: seq<Orphan> := [];
      for i := 0 to |orphaned|
        invariant orphaned == old(orphaned) && told == Stamped(orphaned[..i], sentAt)
        invariant notified == before + PendingIds(orphaned[..i])
        invariant account.state == MarkNotified(start, PendingIds(orphaned[..i]), failing, sentAt)
      {
        OneMorePending(orphaned, i, sentAt);
        var orphan := orphaned[i];
        if orphan.notifiedAt.None? {
          MarkOne(account, orphan.subscriptionId, failing, sentAt, start, PendingIds(orphaned[..i]));
          notified := notified + [orphan.subscriptionId];
        }
        told := told + [Told(orphan, sentAt)];
      }
      assert orphaned[..|orphaned|] == orphaned;
      orphaned := told;
    }

    static method MarkOne(account: Account, id: string, failing: set<string>, sentAt: Stamp,
                          ghost start: Stripe, ghost ids: seq<string>)
      requires account.state == MarkNotified(start, ids, failing, sentAt)
      modifies account
      ensures account.state == MarkNotified(start, ids + [id], failing, sentAt)
    {
      OneMoreMarked(start, ids, id, failing, sentAt);
      var raised := account.SetSubscriptionMetadata(id, map[NOTIFIED_AT := sentAt], id in failing);
    }

    method Notify(account: Account, notifier: Notifier, sentAt: Stamp) returns (emails: seq<seq<string>>)
      modifies this`orphaned, this`notified, this`unnotified, account
      ensures (Value(), account.state, emails) == Notified(old(Value()), old(account.state), notifier, sentAt)
    {
      var ids := PendingIds(orphaned);
      if ids == [] {
        return [];
      }
      if !notifier.Accepts? {
        unnotified := ids;
        return [];
      }
      MarkPending(account, notifier.marksFailing, sentAt);
      return [ids];
    }
  }

  /** The sync that repairs one customer, unless something stops it. */
  method Resync(session: Session, env: Env, stripe: Stripe, customer: string, o: Outcome, turn: Turn)
    returns (raised: bool)
    requires session.Valid() && Repairs(env, o)
    modifies session`working, session`marks
    ensures session.Valid()
    ensures match Repaired(old(session.working), stripe, env, customer, o, turn)
            case Ignored => !raised && unchanged(session)
            case IntegrityError => raised
            case Synced(db, _, marks) => !raised && session.working == db && session.marks == old(session.marks) + marks
  {
    if turn.fault.SyncRaises? {
      return true;
    }
    raised := SyncSubscriptionFromStripe(session, env.catalog, stripe, customer, None, Reason(o), turn.now);
  }

  /** The second half of one check: the comparison, and the repair it calls for. */
  method Compare(session: Session, stripe: Stripe, report: ReconcileReport, remote: RemoteSubscription,
                 customer: string, env: Env, turn: Turn)
    returns (raised: bool, repaired: bool)
    requires session.Valid()
    modifies session`working, session`marks, report
    ensures session.Valid()
    ensures report.Value() == Tallied(old(report.Value()), env, remote, customer, LocalRow(old(session.working), customer))
    ensures var o := Compared(env, remote, LocalRow(old(session.working), customer));
            && (!raised ==> repaired == Repairs(env, o))
            && match Repaired(old(session.working), stripe, env, customer, o, turn)
               case Ignored => !raised && session.working == old(session.working) && session.marks == old(session.marks)
               case IntegrityError => raised
               case Synced(db, _, marks) => !raised && session.working == db && session.marks == old(session.marks) + marks
  {
    var local := LocalRow(session.working, customer);
    if local.None? {
      report.unknownCustomers := report.unknownCustomers + [customer];
      if env.dryRun {
        return false, false;
      }
      raised := Resync(session, env, stripe, customer, Unknown, turn);
      return raised, true;
    }
    var expected := Project(env.catalog, Some(remote));
    if Agrees(local.value, expected) {
      return false, false;
    }
    report.mismatched := report.mismatched + 1;
    report.details := report.details + [
      Detail(local.value.userId, customer, local.value.mirror.tier, local.value.mirror.status,
             expected.tier, remote.providerStatus)];
    if env.dryRun {
      return false, false;
    }
    raised := Resync(session, env, stripe, customer, Mismatched, turn);
    return raised, true;
  }

  method ReconcileOne(session: Session, account: Account, report: ReconcileReport, remote: RemoteSubscription,
                      customer: string, env: Env, turn: Turn)
    returns (raised: bool, repaired: bool)
    requires session.Valid()
    modifies session`working, session`marks, account, report
    ensures session.Valid()
    ensures var db := old(session.working);
            var c := Check(old(report.Value()), db, old(account.state), env, remote, customer, turn);
            && (account.state, report.Value()) == (c.stripe, c.report)
            && (!raised ==> repaired == Repairs(env, c.outcome))
            && match Repaired(db, c.stripe, env, customer, c.outcome, turn)
               case Ignored => raised == c.outcome.NotClassified? && session.working == db && session.marks == old(session.marks)
               case IntegrityError => raised
               case Synced(after, _, marks) => !raised && session.working == after && session.marks == old(session.marks) + marks
  {
    if turn.fault.LooksUpNothing? {
      return true, false;
    }
    var local := LocalRow(session.working, customer);
    if local.None? && !BelongsToThisService(env.catalog, Some(remote)) {
      report.ignored := report.ignored + 1;
      return false, false;
    }
    var user := OwnerOf(session.working, account.state, remote, customer);
    var gone := Gone(session.working, account.state, env, remote, customer);
    if gone == Some(true) {
      raised := report.RecordOrphan(account, remote, customer, user.value, env.dryRun, turn);
      return raised, false;
    }
    if gone == Some(false) && Marked(remote) && !env.dryRun {
      raised := account.SetSubscriptionMetadata(remote.id, NO_MARKS, turn.fault.MetadataFails?);
      if raised {
        return true, false;
      }
    }
    raised, repaired := Compare(session, account.state, report, remote, customer, env, turn);
  }

  lemma DrainedToo(a: set<string>, b: set<string>, failing: set<string>)
    ensures EntitlementKeys(a + b - failing) == EntitlementKeys(a - failing) + EntitlementKeys(b - failing)
  {
  }

  /** Ends the transaction of one check: `c` and `r` are what it found and what its repair came to. */
  method Conclude(session: Session, report: ReconcileReport, id: string, customer: string, raised: bool, repaired: bool,
                  env: Env, fault: Fault, deletesFailing: set<string>,
                  ghost p: Pass, ghost c: Checked, ghost r: SyncResult, ghost cached: Data)
    requires session.Valid() && session.committed == p.db && report.Value() == c.report
    requires session.cache.data == cached - EntitlementKeys(p.drained - deletesFailing)
    requires env.dryRun || c.outcome.NotClassified? ==> r.Ignored?
    requires !raised ==> repaired == Repairs(env, c.outcome)
    requires match r
             case Ignored => raised == c.outcome.NotClassified? && session.working == p.db && session.marks == {}
             case IntegrityError => raised
             case Synced(after, _, marks) => !raised && session.working == after && session.marks == marks
    modifies session, session.cache, report`failed, report`repaired
    ensures session.Idle()
    ensures var q := Concluded(p, env, id, customer, c, r, fault);
            && (session.committed, c.stripe, report.Value()) == (q.db, q.stripe, q.report)
            && session.cache.data == cached - EntitlementKeys(q.drained - deletesFailing)
  {
    if raised || (fault.CommitFails? && !env.dryRun) {
      session.Rollback();
      report.failed := report.failed + [customer];
      return;
    }
    if env.dryRun {
      session.Rollback();
    } else {
      DrainedToo(p.drained, session.marks, deletesFailing);
      CommitAndInvalidate(session, deletesFailing);
    }
    if repaired {
      report.repaired := report.repaired + 1;
    }
  }

  /** The job between two checks: everything is as this pass says, and whoever it drained is uncached. */
  ghost predicate Carries(session: Session, account: Account, report: ReconcileReport, p: Pass, cached: Data, deletesFailing: set<string>)
    reads session, session.cache, account, report
  {
    && session.Idle()
    && (session.committed, account.state, report.Value()) == (p.db, p.stripe, p.report)
    && session.cache.data == cached - EntitlementKeys(p.drained - deletesFailing)
  }

  /** One round of the inner loop, in a transaction of its own. */
  method CheckOne(session: Session, account: Account, report: ReconcileReport, remote: RemoteSubscription,
                  env: Env, turn: Turn, deletesFailing: set<string>, ghost p: Pass, ghost cached: Data)
    requires Carries(session, account, report, p, cached, deletesFailing)
    modifies session, session.cache, account, report
    ensures Carries(session, account, report, Visit(p, env, remote, turn), cached, deletesFailing)
  {
    report.checked := report.checked + 1;
    if remote.customerId.None? || remote.customerId.value == "" {
      return;
    }
    var customer := remote.customerId.value;
    var raised, repaired := ReconcileOne(session, account, report, remote, customer, env, turn);
    ghost var c := CheckIn(p, env, remote, turn);
    Conclude(session, report, remote.id, customer, raised, repaired, env, turn.fault, deletesFailing,
             p, c, Repaired(p.db, c.stripe, env, customer, c.outcome, turn), cached);
  }

  // ---- paging ----

  datatype SubscriptionPage = SubscriptionPage(items: seq<RemoteSubscription>, hasMore: bool)

  /** Stripe's ids are not empty and not shared. */
  predicate UniqueIds(listing: seq<RemoteSubscription>) {
    && (forall i :: 0 <= i < |listing| ==> listing[i].id != "")
    && (forall i, j :: 0 <= i < j < |listing| ==> listing[i].id != listing[j].id)
  }

  /** How many of the listed subscriptions end with this one; all of them when it is not listed. */
  function UpTo(listing: seq<RemoteSubscription>, id: string): (n: nat)
    ensures n <= |listing|
  {
    if listing == [] then 0 else if listing[0].id == id then 1 else 1 + UpTo(listing[1..], id)
  }

  /** What Stripe answers: at most `limit` subscriptions after the cursor, and whether more follow. */
  function PageAfter(listing: seq<RemoteSubscription>, cursor: Option<string>, limit: nat): SubscriptionPage {
    var from := if cursor.Some? && cursor.value != "" then UpTo(listing, cursor.value) else 0;
    var to := if |listing| - from <= limit then |listing| else from + limit;
    SubscriptionPage(listing[from..to], to < |listing|)
  }

  lemma {:induction false} CursorIsWhereItWas(listing: seq<RemoteSubscription>, k: nat)
    requires UniqueIds(listing) && k < |listing|
    ensures UpTo(listing, listing[k].id) == k + 1
  {
    if k > 0 {
      assert forall i :: 0 <= i < |listing[1..]| ==> listing[1..][i] == listing[i + 1];
      CursorIsWhereItWas(listing[1..], k - 1);
    }
  }

  /** Visiting a page is visiting that stretch of the listing. */
  lemma {:induction false} PageIsAStretch(p: Pass, env: Env, listing: seq<RemoteSubscription>, turns: seq<Turn>, seen: nat, n: nat, m: nat)
    requires n <= m && seen + m <= |listing| == |turns|
    ensures VisitAll(VisitAll(p, env, listing, turns, seen), env, listing[seen..seen + m], turns[seen..seen + m], n)
            == VisitAll(p, env, listing, turns, seen + n)
  {
    hide Visit;
    if n > 0 {
      PageIsAStretch(p, env, listing, turns, seen, n - 1, m);
      assert listing[seen..seen + m][n - 1] == listing[seen + n - 1];
      assert turns[seen..seen + m][n - 1] == turns[seen + n - 1];
    }
  }

  /** The page after what was seen is the next stretch, empty only at the end, where no more follows. */
  lemma NextPage(listing: seq<RemoteSubscription>, cursor: Option<string>, seen: nat, limit: nat)
    requires UniqueIds(listing) && limit >= 1 && seen <= |listing|
    requires if seen == 0 then cursor.None? else cursor == Some(listing[seen - 1].id)
    ensures var page := PageAfter(listing, cursor, limit);
            var to := seen + |page.items|;
            to <= |listing| && page.items == listing[seen..to] && (page.items == [] ==> seen == |listing|)
            && (page.hasMore <==> to < |listing|)
  {
    if seen > 0 { CursorIsWhereItWas(listing, seen - 1); }
  }

  method CheckPage(session: Session, account: Account, report: ReconcileReport, items: seq<RemoteSubscription>,
                   env: Env, turns: seq<Turn>, deletesFailing: set<string>, ghost p: Pass, ghost cached: Data)
    requires Carries(session, account, report, p, cached, deletesFailing) && |items| == |turns|
    modifies session, session.cache, account, report
    ensures Carries(session, account, report, VisitAll(p, env, items, turns, |items|), cached, deletesFailing)
  {
    hide Visit;
    for i := 0 to |items|
      invariant Carries(session, account, report, VisitAll(p, env, items, turns, i), cached, deletesFailing)
    {
      CheckOne(session, account, report, items[i], env, turns[i], deletesFailing, VisitAll(p, env, items, turns, i), cached);
    }
  }

  method CheckNext(session: Session, account: Account, report: ReconcileReport, listing: seq<RemoteSubscription>,
                   items: seq<RemoteSubscription>, seen: nat, env: Env, turns: seq<Turn>, deletesFailing: set<string>,
                   ghost start: Pass, ghost cached: Data)
    requires |turns| == |listing| && seen + |items| <= |listing| && items == listing[seen..seen + |items|]
    requires Carries(session, account, report, VisitAll(start, env, listing, turns, seen), cached, deletesFailing)
    modifies session, session.cache, account, report
    ensures Carries(session, account, report, VisitAll(start, env, listing, turns, seen + |items|), cached, deletesFailing)
  {
    hide Visit;
    PageIsAStretch(start, env, listing, turns, seen, |items|, |items|);
    CheckPage(session, account, report, items, env, turns[seen..seen + |items|], deletesFailing,
              VisitAll(start, env, listing, turns, seen), cached);
  }

  /** The paging loop. Whatever the page size, it ends, and every subscription is visited exactly once,
      in Stripe's order. */
  method CheckAll(session: Session, account: Account, report: ReconcileReport, listing: seq<RemoteSubscription>, limit: nat,
                  env: Env, turns: seq<Turn>, deletesFailing: set<string>, ghost start: Pass, ghost cached: Data)
    requires Carries(session, account, report, start, cached, deletesFailing)
    requires UniqueIds(listing) && |turns| == |listing| && limit >= 1
    modifies session, session.cache, account, report
    ensures Carries(session, account, report, VisitAll(start, env, listing, turns, |listing|), cached, deletesFailing)
  {
    hide Visit;
    var cursor: Option<string>, seen: nat := None, 0;
    while true
      invariant seen <= |listing|
      invariant if seen == 0 then cursor.None? else cursor == Some(listing[seen - 1].id)
      invariant Carries(session, account, report, VisitAll(start, env, listing, turns, seen), cached, deletesFailing)
      decreases |listing| - seen
    {
      NextPage(listing, cursor, seen, limit);
      var page := PageAfter(listing, cursor, limit);
      if page.items == [] {
        break;
      }
      CheckNext(session, account, report, listing, page.items, seen, env, turns, deletesFailing, start, cached);
      seen := seen + |page.items|;
      if !page.hasMore {
        break;
      }
      cursor := Some(page.items[|page.items| - 1].id);
    }
  }

  /** The whole run. A dry run sends no email. */
  method Reconcile(session: Session, account: Account, listing: seq<RemoteSubscription>, limit: nat, env: Env,
                   turns: seq<Turn>, notifier: Notifier, sentAt: Stamp, deletesFailing: set<string>)
    returns (report: ReconcileReport, emails: seq<seq<string>>)
    requires session.Idle() && UniqueIds(listing) && |turns| == |listing| && limit >= 1
    modifies session, session.cache, account
    ensures session.Idle()
    ensures var q := VisitAll(Started(old(session.committed), old(account.state)), env, listing, turns, |listing|);
            && session.committed == q.db
            && session.cache.data == old(session.cache.data) - EntitlementKeys(q.drained - deletesFailing)
            && (report.Value(), account.state, emails)
               == if env.dryRun then (q.report, q.stripe, []) else Notified(q.report, q.stripe, notifier, sentAt)
  {
    report := new ReconcileReport();
    ghost var start, cached := Started(session.committed, account.state), session.cache.data;
    assert cached - EntitlementKeys(start.drained - deletesFailing) == cached;
    CheckAll(session, account, report, listing, limit, env, turns, deletesFailing, start, cached);
    emails := [];
    if !env.dryRun {
      emails := report.Notify(account, notifier, sentAt);
    }
  }
}
