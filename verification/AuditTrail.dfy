/** The audit log against the row: app/services/audit.py, and everyone who writes to it.

    Support reads the log to say what a user's tier and status were, and when they moved. No writer moves
    either without an entry. An entry can be wrong where a writer quotes a row it read without a lock and
    something overtook it: an extension, a dispute, or a customer's first contact. That this is the only
    way is proved, over runs, as an if and only if.
 */
module AuditTrail {
  import opened Models
  import opened Subscriptions
  import opened Admin
  import opened Writers
  import opened EntitlementReads
  import opened ExpireGrace
  import opened DunningCycles

  type Access = (Tier, Status)

  /** An entry about what a user's row says. Entries about grants carry no status, and the nightly report
      is about what the read path derives. */
  predicate Tells(a: Audit, userId: string) {
    && a.userId == userId && a.reason != REASON
    && a.fromTier.Some? && a.fromStatus.Some? && a.toTier.Some? && a.toStatus.Some?
  }

  /** What the log last said of a user. */
  function Told(audits: seq<Audit>, userId: string): Access {
    if audits == [] then (Tier.Free, NoSubscription)
    else
      var last := audits[|audits| - 1];
      if Tells(last, userId) then (last.toTier.value, last.toStatus.value) else Told(audits[..|audits| - 1], userId)
  }

  /** Each entry starts where the one before it about the same user ended. */
  ghost predicate Chained(audits: seq<Audit>) {
    forall i :: 0 <= i < |audits| && Tells(audits[i], audits[i].userId) ==> StartsAt(audits, i)
  }

  ghost predicate StartsAt(audits: seq<Audit>, i: nat)
    requires i < |audits| && Tells(audits[i], audits[i].userId)
  {
    (audits[i].fromTier.value, audits[i].fromStatus.value) == Told(audits[..i], audits[i].userId)
  }

  function AccessOf(rows: seq<Row>, userId: string): Access {
    match Find(rows, ByUser(userId))
    case Some(i) => (rows[i].mirror.tier, rows[i].mirror.status)
    case None => (Tier.Free, NoSubscription)
  }

  ghost predicate TrailOk(db: Db) {
    Chained(db.audits) && forall u :: Told(db.audits, u) == AccessOf(db.rows, u)
  }

  /** One more entry, about a user who is where the entry starts. */
  lemma OneMoreEntry(audits: seq<Audit>, a: Audit)
    requires Chained(audits)
    requires Tells(a, a.userId) ==> (a.fromTier.value, a.fromStatus.value) == Told(audits, a.userId)
    ensures Chained(audits + [a])
    ensures forall u :: Told(audits + [a], u) == if Tells(a, u) then (a.toTier.value, a.toStatus.value) else Told(audits, u)
  {
    var later := audits + [a];
    assert later[..|audits|] == audits;
    forall i | 0 <= i < |later| && Tells(later[i], later[i].userId) ensures StartsAt(later, i) {
      if i < |audits| {
        assert later[i] == audits[i] && later[..i] == audits[..i];
        assert StartsAt(audits, i);
      }
    }
  }

  lemma {:induction false} ReportsTellNothing(audits: seq<Audit>, rows: seq<Row>, now: Instant)
    requires Chained(audits)
    ensures Chained(audits + Reports(rows, now))
    ensures forall u :: Told(audits + Reports(rows, now), u) == Told(audits, u)
  {
    if rows == [] {
      assert audits + Reports(rows, now) == audits;
    } else {
      var init, last := rows[..|rows| - 1], rows[|rows| - 1];
      ReportsTellNothing(audits, init, now);
      OneMore(init, last, now);
      assert init + [last] == rows;
      assert audits + Reports(rows, now) == (audits + Reports(init, now)) + [ExpireGrace.Report(last, now)];
      OneMoreEntry(audits + Reports(init, now), ExpireGrace.Report(last, now));
    }
  }

  /** The log of a write to the row in hand: an entry from what the row said to what it says, or none if
      it goes on saying it. */
  ghost predicate Logged(before: seq<Audit>, later: seq<Audit>, read: Row, written: Row) {
    || (later == before && !Transition(read, written))
    || (exists reason, event, now :: reason != REASON && later == before + [AuditOf(read, written, reason, event, now)])
  }

  /** Any write to one row keeps the trail, if it is logged. */
  lemma LoggedWriteKeepsTrail(db: Db, rows: seq<Row>, i: nat, after: Row, later: Db)
    requires TrailOk(db) && UniqueRows(db.rows) && InHand(db.rows, rows, i)
    requires rows[i].userId == after.userId && UniqueRows(rows[i := after])
    requires later.rows == rows[i := after] && Logged(db.audits, later.audits, rows[i], after)
    ensures TrailOk(later)
  {
    FindUserAfterWrite(db.rows, rows, i, after, after.userId);
    assert AccessOf(db.rows, after.userId) == (rows[i].mirror.tier, rows[i].mirror.status);
    assert AccessOf(later.rows, after.userId) == (after.mirror.tier, after.mirror.status);
    if later.audits != db.audits {
      OneMoreEntry(db.audits, later.audits[|later.audits| - 1]);
    }
    forall u ensures Told(later.audits, u) == AccessOf(later.rows, u) {
      FindUserAfterWrite(db.rows, rows, i, after, u);
      assert Told(db.audits, u) == AccessOf(db.rows, u);
    }
  }

  lemma WriteBackKeepsTrail(db: Db, rows: seq<Row>, i: nat, state: MirroredState, event: Option<string>,
                            reason: string, now: Instant)
    requires TrailOk(db) && UniqueRows(db.rows) && InHand(db.rows, rows, i) && reason != REASON
    ensures var r := WriteBack(db, rows, i, state, event, reason, now);
            r.Synced? ==> TrailOk(r.db)
  {
    var r := WriteBack(db, rows, i, state, event, reason, now);
    if r.Synced? {
      LoggedWriteKeepsTrail(db, rows, i, Written(rows[i], state, now), r.db);
    }
  }

  /** Every writer but an arbitrary one, under its own reason. */
  predicate Honest(w: Write) {
    match w
    case AppendAudit(_) => false
    case SyncOf(_, _, _, reason) => reason != REASON
    case LateFirstContact(_, _, _, reason) => reason != REASON
    case OvertakenContact(_, _, _, reason) => reason != REASON
    case _ => true
  }

  /** A write whose entry quotes the row as it was read, without a lock: an extension, a dispute, or a
      first contact. */
  predicate Quotes(db: Db, catalog: Catalog, w: Write, now: Instant) {
    match w
    case DisputeOf(seen, _) => Find(db.rows, ByUser(seen.userId)).Some?
    case Extend(seen, _) => Find(db.rows, ByUser(seen.userId)).Some? && seen.pastDueSince.Some?
    case OvertakenContact(seen, customer, answer, reason) =>
      var state := Project(catalog, answer);
      && Contact(db, seen, customer, state, None, reason, now).Synced?
      && (reason != PLAIN_SYNC || Transition(seen, Contacted(seen, customer, state, now)))
    case _ => false
  }

  /** What it read of tier and status is still so when it lands. */
  predicate TrueTo(db: Db, catalog: Catalog, w: Write, now: Instant) {
    Quotes(db, catalog, w, now) ==> (w.seen.mirror.tier, w.seen.mirror.status) == AccessOf(db.rows, w.seen.userId)
  }

  lemma GrantKeepsTrail(db: Db, catalog: Catalog, w: Write, now: Instant)
    requires TrailOk(db) && (w.Comp? || w.Revoke? || w.LateRevokeOf?)
    ensures TrailOk(Writers.Apply(db, catalog, w, now))
  {
    var later := Writers.Apply(db, catalog, w, now);
    if later.audits != db.audits {
      OneMoreEntry(db.audits, later.audits[|later.audits| - 1]);
    }
  }

  /** The writers that change a customer id or add a row on free, and audit nothing. */
  lemma SilentWriteKeepsTrail(db: Db, catalog: Catalog, w: Write, now: Instant)
    requires TrailOk(db) && UniqueRows(db.rows) && (w.SignUp? || w.CheckoutOf? || w.LateCheckoutOf?)
    ensures TrailOk(Writers.Apply(db, catalog, w, now))
  {
    var later := Writers.Apply(db, catalog, w, now);
    if later != db {
      EveryWriteKeepsUnique(db, catalog, w, now);
      var rows, i := db.rows, 0;
      match w {
        case SignUp(user) => rows, i := GetOrCreate(db.rows, user).0, GetOrCreate(db.rows, user).1;
        case CheckoutOf(user, _, _, _) => rows, i := GetOrCreate(db.rows, user).0, GetOrCreate(db.rows, user).1;
        case LateCheckoutOf(user, _) => i := Find(db.rows, ByUser(user)).value;
      }
      assert later.rows == rows[i := later.rows[i]];
      LoggedWriteKeepsTrail(db, rows, i, later.rows[i], later);
    }
  }

  /** An entry that quotes what is not so breaks the chain where it stands. */
  lemma MisquoteBreaksTheChain(before: seq<Audit>, later: seq<Audit>, entry: Audit)
    requires later == before + [entry] && Tells(entry, entry.userId)
    requires (entry.fromTier.value, entry.fromStatus.value) != Told(before, entry.userId)
    ensures !Chained(later)
  {
    var n := |before|;
    assert later[..n] == before && later[n] == entry;
    assert !StartsAt(later, n);
  }

  lemma ContactKeepsTrailIff(db: Db, catalog: Catalog, w: Write, now: Instant)
    requires TrailOk(db) && UniqueRows(db.rows) && w.OvertakenContact? && Honest(w)
    ensures var later := Writers.Apply(db, catalog, w, now);
            (TrueTo(db, catalog, w, now) ==> TrailOk(later)) && (!TrueTo(db, catalog, w, now) ==> !Chained(later.audits))
  {
    var state := Project(catalog, w.answer);
    var r := Contact(db, w.seen, w.customer, state, None, w.reason, now);
    if r.Synced? {
      var i, decided := r.index, Contacted(w.seen, w.customer, state, now);
      var after := r.db.rows[i];
      assert Told(db.audits, w.seen.userId) == AccessOf(db.rows, w.seen.userId);
      if TrueTo(db, catalog, w, now) {
        var rows := db.rows[i := db.rows[i].(customerId := after.customerId)];
        assert rows[i := after] == r.db.rows;
        assert Quotes(db, catalog, w, now) ==>
                 AuditOf(w.seen, decided, w.reason, None, now) == AuditOf(rows[i], after, w.reason, None, now);
        LoggedWriteKeepsTrail(db, rows, i, after, r.db);
      } else {
        MisquoteBreaksTheChain(db.audits, r.db.audits, AuditOf(w.seen, decided, w.reason, None, now));
      }
    }
  }

  /** A write that quotes what it read keeps the trail if and only if that is still so; if it is not, no
      later write makes it good, since the entry stays where it is. */
  lemma QuotingWriteKeepsTrailIff(db: Db, catalog: Catalog, w: Write, now: Instant)
    requires TrailOk(db) && UniqueRows(db.rows) && (w.DisputeOf? || w.Extend?)
    ensures var later := Writers.Apply(db, catalog, w, now);
            (TrueTo(db, catalog, w, now) ==> TrailOk(later)) && (!TrueTo(db, catalog, w, now) ==> !Chained(later.audits))
  {
    var later := Writers.Apply(db, catalog, w, now);
    if Quotes(db, catalog, w, now) {
      EveryWriteKeepsUnique(db, catalog, w, now);
      var i := Find(db.rows, ByUser(w.seen.userId)).value;
      var reason := if w.Extend? then "admin.extend_grace" else "charge.dispute.created";
      var event := if w.Extend? then None else w.event;
      var entry := AuditOf(w.seen, w.seen, reason, event, now);
      assert later.audits == db.audits + [entry];
      assert Told(db.audits, w.seen.userId) == AccessOf(db.rows, w.seen.userId);
      if TrueTo(db, catalog, w, now) {
        assert entry == AuditOf(db.rows[i], later.rows[i], reason, event, now);
        LoggedWriteKeepsTrail(db, db.rows, i, later.rows[i], later);
      } else {
        MisquoteBreaksTheChain(db.audits, later.audits, entry);
      }
    }
  }

  lemma EveryWriteKeepsTrailIff(db: Db, catalog: Catalog, w: Write, now: Instant)
    requires TrailOk(db) && UniqueRows(db.rows) && Honest(w)
    ensures var later := Writers.Apply(db, catalog, w, now);
            (TrueTo(db, catalog, w, now) ==> TrailOk(later)) && (!TrueTo(db, catalog, w, now) ==> !Chained(later.audits))
  {
    match w
    case SyncOf(customer, stripe, event, reason) =>
      if Sync(db, catalog, stripe, customer, event, reason, now).Synced? {
        var rows, i := SyncWritesBack(db, catalog, stripe, customer, event, reason, now);
        WriteBackKeepsTrail(db, rows, i, Project(catalog, stripe.Fetch(customer)), event, reason, now);
      }
    case LateFirstContact(customer, userId, answer, reason) =>
      ClaimedIsInHand(db.rows, customer, userId);
      var (rows, i) := Claimed(db.rows, customer, userId);
      WriteBackKeepsTrail(db, rows, i, Project(catalog, answer), None, reason, now);
    case OvertakenContact(_, _, _, _) => ContactKeepsTrailIff(db, catalog, w, now);
    case DisputeOf(_, _) => QuotingWriteKeepsTrailIff(db, catalog, w, now);
    case Extend(_, _) => QuotingWriteKeepsTrailIff(db, catalog, w, now);
    case Comp(_, _, _) => GrantKeepsTrail(db, catalog, w, now);
    case Revoke(_) => GrantKeepsTrail(db, catalog, w, now);
    case LateRevokeOf(_) => GrantKeepsTrail(db, catalog, w, now);
    case _ => SilentWriteKeepsTrail(db, catalog, w, now);
  }

  /** Entries are only ever added. */
  lemma LogOnlyGrows(settings: Settings, db: Db, catalog: Catalog, e: Event, now: Instant)
    ensures db.audits <= ApplyEvent(settings, db, catalog, e, now).audits
  {
    if e.Writes? { WriteOnlyAdds(db, catalog, e.w, now); }
  }

  lemma WriteOnlyAdds(db: Db, catalog: Catalog, w: Write, now: Instant)
    ensures db.audits <= Writers.Apply(db, catalog, w, now).audits
  {
    match w
    case SyncOf(customer, stripe, event, reason) => SyncOnlyAdds(db, catalog, stripe, customer, event, reason, now);
    case _ =>
  }

  lemma SyncOnlyAdds(db: Db, catalog: Catalog, stripe: Stripe, customer: string, event: Option<string>, reason: string, now: Instant)
    ensures var r := Sync(db, catalog, stripe, customer, event, reason, now);
            r.Synced? ==> db.audits <= r.db.audits
  {
  }

  lemma BrokenStaysBroken(before: seq<Audit>, later: seq<Audit>)
    requires before <= later && Chained(later)
    ensures Chained(before)
  {
    forall i | 0 <= i < |before| && Tells(before[i], before[i].userId) ensures StartsAt(before, i) {
      assert before[i] == later[i] && before[..i] == later[..i];
      assert StartsAt(later, i);
    }
  }

  function At(settings: Settings, catalog: Catalog, es: seq<(Event, Instant)>, n: nat): Db
    requires n <= |es|
  {
    Nights(settings, Db([], [], [], map[]), catalog, es[..n])
  }

  /** Every extension, dispute and first contact among the first `n` events audited what was so when it
      landed. */
  ghost predicate AllTrue(settings: Settings, catalog: Catalog, es: seq<(Event, Instant)>, n: nat) {
    forall k :: 0 <= k < n && k < |es| && es[k].0.Writes? ==> TrueTo(At(settings, catalog, es, k), catalog, es[k].0.w, es[k].1)
  }

  lemma OneMoreEvent(settings: Settings, catalog: Catalog, es: seq<(Event, Instant)>, n: nat)
    requires n < |es|
    ensures At(settings, catalog, es, n + 1) == ApplyEvent(settings, At(settings, catalog, es, n), catalog, es[n].0, es[n].1)
  {
    assert es[..n + 1][..n] == es[..n];
  }

  lemma EventKeepsTrailIff(settings: Settings, db: Db, catalog: Catalog, e: Event, now: Instant)
    requires TrailOk(db) && UniqueRows(db.rows) && (e.Writes? ==> Honest(e.w))
    ensures var later := ApplyEvent(settings, db, catalog, e, now);
            && UniqueRows(later.rows)
            && (if e.Writes? && !TrueTo(db, catalog, e.w, now) then !Chained(later.audits) else TrailOk(later))
  {
    match e
    case Writes(w) =>
      EveryWriteKeepsUnique(db, catalog, w, now);
      EveryWriteKeepsTrailIff(db, catalog, w, now);
    case Expires => ReportsTellNothing(db.audits, DueRows(settings, db, now, |db.rows|), now);
  }

  /** The log replays the row, exactly as long as nothing is quoted that is no longer so. Over any
      interleaving of the writers and the nightly report: each user's last entry says the tier and status
      their row has, each entry starts where the one before it ended, and a user without an entry is on
      free, if and only if every extension, dispute and first contact so far audited what was so when it
      landed. */
  lemma {:induction false} AuditReplaysTheRowIff(settings: Settings, catalog: Catalog, es: seq<(Event, Instant)>, n: nat)
    requires n <= |es| && forall i :: 0 <= i < |es| && es[i].0.Writes? ==> Honest(es[i].0.w)
    ensures var db := At(settings, catalog, es, n);
            && UniqueRows(db.rows)
            && (TrailOk(db) <==> AllTrue(settings, catalog, es, n))
            && (Chained(db.audits) <==> AllTrue(settings, catalog, es, n))
  {
    hide ApplyEvent;
    assert es[..0] == [];
    if n > 0 {
      AuditReplaysTheRowIff(settings, catalog, es, n - 1);
      OneMoreEvent(settings, catalog, es, n - 1);
      var db, e, now := At(settings, catalog, es, n - 1), es[n - 1].0, es[n - 1].1;
      var later := At(settings, catalog, es, n);
      if TrailOk(db) {
        EventKeepsTrailIff(settings, db, catalog, e, now);
      } else {
        EventKeepsTable(settings, db, catalog, e, now);
        LogOnlyGrows(settings, db, catalog, e, now);
        if Chained(later.audits) {
          BrokenStaysBroken(db.audits, later.audits);
        }
      }
      assert AllTrue(settings, catalog, es, n) <==>
             AllTrue(settings, catalog, es, n - 1) && (e.Writes? ==> TrueTo(db, catalog, e.w, now));
    }
  }

  lemma EventKeepsTable(settings: Settings, db: Db, catalog: Catalog, e: Event, now: Instant)
    requires UniqueRows(db.rows)
    ensures UniqueRows(ApplyEvent(settings, db, catalog, e, now).rows)
  {
    if e.Writes? { EveryWriteKeepsUnique(db, catalog, e.w, now); }
  }

  /** An extension that quotes what is no longer so leaves a last entry that denies the row. */
  lemma AMisquoteIsTheLastWord(db: Db, catalog: Catalog, w: Write, now: Instant)
    requires TrailOk(db) && UniqueRows(db.rows) && w.Extend? && !TrueTo(db, catalog, w, now)
    ensures var after := Writers.Apply(db, catalog, w, now);
            Told(after.audits, w.seen.userId) != AccessOf(after.rows, w.seen.userId) && !Chained(after.audits)
  {
    var after, at := Writers.Apply(db, catalog, w, now), Find(db.rows, ByUser(w.seen.userId)).value;
    QuotingWriteKeepsTrailIff(db, catalog, w, now);
    EveryWriteKeepsUnique(db, catalog, w, now);
    FindIs(after.rows, ByUser(w.seen.userId), at);
  }

  /** The trace. An extension reads a row, a sync moves its tier or status and says so in the log, and the
      extension lands: its entry, the last one, denies what the row says by then. */
  lemma AnOvertakenExtensionMisquotesTheRow(db: Db, catalog: Catalog, i: nat, customer: string, stripe: Stripe,
                                            reason: string, days: int, now: Instant, later: Instant)
    requires UniqueRows(db.rows) && TrailOk(db) && i < |db.rows| && reason != REASON
    requires db.rows[i].customerId == Some(customer) && db.rows[i].pastDueSince.Some?
    requires var m := Project(catalog, stripe.Fetch(customer));
             m.tier != db.rows[i].mirror.tier || m.status != db.rows[i].mirror.status
    requires Sync(db, catalog, stripe, customer, None, reason, now).Synced?
    ensures var mid := Writers.Apply(db, catalog, SyncOf(customer, stripe, None, reason), now);
            var after := Writers.Apply(mid, catalog, Extend(db.rows[i], days), later);
            && TrailOk(mid)
            && Told(after.audits, db.rows[i].userId) != AccessOf(after.rows, db.rows[i].userId)
            && !Chained(after.audits)
  {
    var w, seen := SyncOf(customer, stripe, None, reason), db.rows[i];
    var mid := Writers.Apply(db, catalog, w, now);
    EveryWriteKeepsTrailIff(db, catalog, w, now);
    SyncKeepsTable(db, catalog, stripe, customer, None, reason, now);
    FindIs(db.rows, ByCustomer(customer), i);
    FindIs(mid.rows, ByUser(seen.userId), i);
    AMisquoteIsTheLastWord(mid, catalog, Extend(seen, days), later);
  }

  /** And the same of a first contact. It read the row somebody made for the customer; a locked sync moved
      its tier or status; the contact lands with an entry that starts from what it had read. */
  lemma AnOvertakenContactMisquotesTheRow(db: Db, catalog: Catalog, i: nat, customer: string, stripe: Stripe,
                                          answer: Option<RemoteSubscription>, reason: string, event: string,
                                          now: Instant, later: Instant)
    requires UniqueRows(db.rows) && TrailOk(db) && i < |db.rows| && reason != REASON && event != REASON && event != PLAIN_SYNC
    requires db.rows[i].customerId == Some(customer)
    requires var m := Project(catalog, stripe.Fetch(customer));
             m.tier != db.rows[i].mirror.tier || m.status != db.rows[i].mirror.status
    requires Sync(db, catalog, stripe, customer, None, reason, now).Synced?
    requires var mid := Writers.Apply(db, catalog, SyncOf(customer, stripe, None, reason), now);
             Contact(mid, db.rows[i], customer, Project(catalog, answer), None, event, later).Synced?
    ensures var mid := Writers.Apply(db, catalog, SyncOf(customer, stripe, None, reason), now);
            && TrailOk(mid)
            && !Chained(Writers.Apply(mid, catalog, OvertakenContact(db.rows[i], customer, answer, event), later).audits)
  {
    var w := SyncOf(customer, stripe, None, reason);
    var mid := Writers.Apply(db, catalog, w, now);
    EveryWriteKeepsTrailIff(db, catalog, w, now);
    SyncKeepsTable(db, catalog, stripe, customer, None, reason, now);
    FindIs(db.rows, ByCustomer(customer), i);
    FindIs(mid.rows, ByUser(db.rows[i].userId), i);
    ContactKeepsTrailIff(mid, catalog, OvertakenContact(db.rows[i], customer, answer, event), later);
  }
}
