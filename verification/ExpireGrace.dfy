/** The nightly report of closed grace windows: app/jobs/expire_grace.py. */
module ExpireGrace {
  import opened Models
  import opened Sessions
  import opened EntitlementReads

  const REASON := "dunning.grace_expired"

  /** Whether a report for this user was written after this instant. */
  predicate ReportedAfter(audits: seq<Audit>, userId: string, since: Instant) {
    exists i :: 0 <= i < |audits| && IsReport(audits[i], userId) && since < audits[i].createdAt
  }

  predicate IsReport(a: Audit, userId: string) {
    a.userId == userId && a.reason == REASON
  }

  predicate AlreadyReported(audits: seq<Audit>, row: Row) {
    row.pastDueSince.Some? && ReportedAfter(audits, row.userId, row.pastDueSince.value)
  }

  /** The rows this run reports: past_due, paying, out of their window, and not reported yet. */
  predicate Due(settings: Settings, audits: seq<Audit>, row: Row, now: Instant) {
    && row.mirror.status.PastDue?
    && row.mirror.tier != Tier.Free
    && GraceExpired(settings, row, now)
    && !AlreadyReported(audits, row)
  }

  function Report(row: Row, now: Instant): Audit {
    Audit(row.userId, Some(row.mirror.tier), Some(Tier.Free), Some(row.mirror.status), Some(row.mirror.status),
          REASON, None, now)
  }

  /** What is reported is access lost and not told of: the mirror shows a tier that the row, past_due, no longer
      pays for, and the report says from which tier to which. */
  lemma ReportsTheLoss(settings: Settings, audits: seq<Audit>, row: Row, now: Instant)
    ensures var effective := SubscriptionTier(settings, Some(row), now);
            && (Due(settings, audits, row, now) <==>
                  && row.mirror.status == PastDue && row.mirror.tier != effective
                  && forall i :: 0 <= i < |audits| && audits[i].userId == row.userId && audits[i].reason == "dunning.grace_expired"
                                 ==> audits[i].createdAt <= row.pastDueSince.GetOr(now))
            && (Due(settings, audits, row, now) ==>
                  Report(row, now) == Audit(row.userId, Some(row.mirror.tier), Some(effective), Some(PastDue), Some(PastDue),
                                            "dunning.grace_expired", None, now))
  {
  }

  /** The rows due among the first `n`, in table order. */
  function DueRows(settings: Settings, db: Db, now: Instant, n: nat): seq<Row>
    requires n <= |db.rows|
  {
    if n == 0 then []
    else
      DueRows(settings, db, now, n - 1)
      + if Due(settings, db.audits, db.rows[n - 1], now) then [db.rows[n - 1]] else []
  }

  function Reports(rows: seq<Row>, now: Instant): seq<Audit> {
    seq(|rows|, i requires 0 <= i < |rows| => Report(rows[i], now))
  }

  function UserIds(rows: seq<Row>): seq<string> {
    seq(|rows|, i requires 0 <= i < |rows| => rows[i].userId)
  }

  function SetOf(users: seq<string>): set<string> {
    set u | u in users
  }

  lemma OneMore(rows: seq<Row>, row: Row, now: Instant)
    ensures Reports(rows + [row], now) == Reports(rows, now) + [Report(row, now)]
    ensures UserIds(rows + [row]) == UserIds(rows) + [row.userId]
  {
  }

  /** The scan of one run: who is due, and what is to be reported of them. */
  method Scan(db: Db, settings: Settings, now: Instant) returns (expired: seq<string>, pending: seq<Audit>)
    ensures expired == UserIds(DueRows(settings, db, now, |db.rows|))
    ensures pending == Reports(DueRows(settings, db, now, |db.rows|), now)
  {
    expired, pending := [], [];
    for i := 0 to |db.rows|
      invariant expired == UserIds(DueRows(settings, db, now, i))
      invariant pending == Reports(DueRows(settings, db, now, i), now)
    {
      var row := db.rows[i];
      if row.mirror.status == PastDue && row.mirror.tier != Tier.Free {
        if GraceExpired(settings, row, now) {
          if !AlreadyReported(db.audits, row) {
            OneMore(DueRows(settings, db, now, i), row, now);
            pending := pending + [Report(row, now)];
            expired := expired + [row.userId];
          }
        }
      }
    }
  }

  method MarkAllStale(session: Session, users: seq<string>)
    requires session.Valid()
    modifies session`marks
    ensures session.Valid() && session.marks == old(session.marks) + SetOf(users)
  {
    for i := 0 to |users|
      invariant session.Valid() && session.marks == old(session.marks) + SetOf(users[..i])
    {
      MarkEntitlementsStale(session, users[i]);
      assert users[..i + 1] == users[..i] + [users[i]];
    }
    assert users[..|users|] == users;
  }

  /** One run. The rows themselves are never written: the mirror is Stripe's, and what changed is only
      what the read path already derives. */
  method ExpireGraceWindows(session: Session, settings: Settings, now: Instant, deletesFailing: set<string>)
    returns (expired: seq<string>)
    requires session.Idle()
    modifies session, session.cache
    ensures session.Idle()
    ensures var db := old(session.committed);
            var due := DueRows(settings, db, now, |db.rows|);
            && expired == UserIds(due)
            && session.committed == db.(audits := db.audits + Reports(due, now))
            && session.cache.data == old(session.cache.data) - EntitlementKeys(SetOf(expired) - deletesFailing)
  {
    var db := session.working;
    var pending: seq<Audit>;
    expired, pending := Scan(db, settings, now);
    if expired != [] {
      session.working := db.(audits := db.audits + pending);
      MarkAllStale(session, expired);
      CommitAndInvalidate(session, deletesFailing);
    } else {
      assert db.audits + pending == db.audits;
      assert EntitlementKeys(SetOf(expired) - deletesFailing) == {};
    }
  }
}
