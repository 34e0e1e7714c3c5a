/** One report for each dunning cycle, over whole runs of the nightly job between any other writes.

    A nightly run is one step here, but for the two overlapping ones at the end.
 */
module DunningCycles {
  import opened Models
  import opened Subscriptions
  import opened Writers
  import opened EntitlementReads
  import opened ExpireGrace

  /** How many reports for this user were written after this instant. */
  function ReportsSince(audits: seq<Audit>, userId: string, since: Instant): nat {
    if audits == [] then 0
    else
      ReportsSince(audits[..|audits| - 1], userId, since)
      + if IsReport(audits[|audits| - 1], userId) && since < audits[|audits| - 1].createdAt then 1 else 0
  }

  lemma {:induction false} ReportedIffCounted(audits: seq<Audit>, userId: string, since: Instant)
    ensures ReportedAfter(audits, userId, since) <==> ReportsSince(audits, userId, since) > 0
  {
    if audits != [] {
      var init := audits[..|audits| - 1];
      ReportedIffCounted(init, userId, since);
      if ReportedAfter(init, userId, since) {
        var i :| 0 <= i < |init| && IsReport(init[i], userId) && since < init[i].createdAt;
        assert audits[i] == init[i];
      }
      if ReportedAfter(audits, userId, since) {
        var i :| 0 <= i < |audits| && IsReport(audits[i], userId) && since < audits[i].createdAt;
        assert i < |init| ==> init[i] == audits[i];
      }
    }
  }

  lemma {:induction false} NoReportsYet(audits: seq<Audit>, userId: string, since: Instant)
    requires forall i :: 0 <= i < |audits| ==> audits[i].createdAt <= since
    ensures ReportsSince(audits, userId, since) == 0
  {
    if audits != [] { NoReportsYet(audits[..|audits| - 1], userId, since); }
  }

  lemma {:induction false} ReportsAdd(a: seq<Audit>, b: seq<Audit>, userId: string, since: Instant)
    ensures ReportsSince(a + b, userId, since) == ReportsSince(a, userId, since) + ReportsSince(b, userId, since)
  {
    if b == [] {
      assert a + b == a;
    } else {
      assert (a + b)[..|a + b| - 1] == a + b[..|b| - 1];
      ReportsAdd(a, b[..|b| - 1], userId, since);
    }
  }

  lemma OneMoreReport(audits: seq<Audit>, entry: Audit, userId: string, since: Instant)
    ensures ReportsSince(audits + [entry], userId, since)
            == ReportsSince(audits, userId, since) + if IsReport(entry, userId) && since < entry.createdAt then 1 else 0
  {
    assert (audits + [entry])[..|audits + [entry]| - 1] == audits;
  }

  lemma DueStep(settings: Settings, db: Db, now: Instant, n: nat, userId: string, since: Instant)
    requires n < |db.rows| && since < now
    ensures ReportsSince(Reports(DueRows(settings, db, now, n + 1), now), userId, since)
            == ReportsSince(Reports(DueRows(settings, db, now, n), now), userId, since)
               + if Due(settings, db.audits, db.rows[n], now) && db.rows[n].userId == userId then 1 else 0
  {
    var before, row := DueRows(settings, db, now, n), db.rows[n];
    OneMore(before, row, now);
    OneMoreReport(Reports(before, now), Report(row, now), userId, since);
    assert before + [] == before;
  }

  lemma NothingScanned(settings: Settings, db: Db, now: Instant, userId: string, since: Instant)
    ensures ReportsSince(Reports(DueRows(settings, db, now, 0), now), userId, since) == 0
  {
  }

  /** A run reports the row at `k` once if it is due, and no other row on its behalf. */
  lemma {:induction false} RunReportsOnce(settings: Settings, db: Db, now: Instant, n: nat, k: nat, since: Instant)
    requires k < |db.rows| && n <= |db.rows| && since < now
    requires forall i :: 0 <= i < |db.rows| && db.rows[i].userId == db.rows[k].userId ==> i == k
    ensures ReportsSince(Reports(DueRows(settings, db, now, n), now), db.rows[k].userId, since)
            == if k < n && Due(settings, db.audits, db.rows[k], now) then 1 else 0
  {
    hide Due, DueRows, Reports, ReportsSince;
    if n == 0 {
      NothingScanned(settings, db, now, db.rows[k].userId, since);
    } else {
      RunReportsOnce(settings, db, now, n - 1, k, since);
      DueStep(settings, db, now, n - 1, db.rows[k].userId, since);
    }
  }

  // ---- runs ----

  datatype Event = Writes(w: Write) | Expires

  /** Every write but an extension, which moves a cycle's start and so may have it reported again. */
  predicate Ordinary(w: Write) {
    match w
    case Extend(_, _) => false
    case AppendAudit(_) => false
    case SyncOf(_, _, _, reason) => reason != REASON
    case LateFirstContact(_, _, _, reason) => reason != REASON
    case OvertakenContact(_, _, _, reason) => reason != REASON
    case _ => true
  }

  function ExpireRun(settings: Settings, db: Db, now: Instant): Db {
    db.(audits := db.audits + Reports(DueRows(settings, db, now, |db.rows|), now))
  }

  function ApplyEvent(settings: Settings, db: Db, catalog: Catalog, e: Event, now: Instant): Db {
    match e
    case Writes(w) => Writers.Apply(db, catalog, w, now)
    case Expires => ExpireRun(settings, db, now)
  }

  function Nights(settings: Settings, db: Db, catalog: Catalog, es: seq<(Event, Instant)>): Db {
    if es == [] then db
    else ApplyEvent(settings, Nights(settings, db, catalog, es[..|es| - 1]), catalog, es[|es| - 1].0, es[|es| - 1].1)
  }

  /** The clock never runs back, and only ordinary writes happen. */
  ghost predicate Orderly(es: seq<(Event, Instant)>) {
    && (forall i, j :: 0 <= i < j < |es| ==> es[i].1 <= es[j].1)
    && (forall i :: 0 <= i < |es| && es[i].0.Writes? ==> Ordinary(es[i].0.w))
  }

  ghost predicate CyclesOk(db: Db, clock: Instant) {
    && UniqueRows(db.rows)
    && (forall i :: 0 <= i < |db.audits| ==> db.audits[i].createdAt <= clock)
    && (forall k :: 0 <= k < |db.rows| && db.rows[k].pastDueSince.Some? ==> OnceInCycle(db, db.rows[k], clock))
  }

  ghost predicate OnceInCycle(db: Db, row: Row, clock: Instant)
    requires row.pastDueSince.Some?
  {
    row.pastDueSince.value <= clock && ReportsSince(db.audits, row.userId, row.pastDueSince.value) <= 1
  }

  /** The row's cycle is the one its user was in before, or it starts now. */
  predicate CycleFrom(before: seq<Row>, k: nat, row: Row, now: Instant) {
    || row.pastDueSince == Some(now)
    || (k < |before| && before[k].userId == row.userId && before[k].pastDueSince == row.pastDueSince)
  }

  /** No entry is added, or one that is dated now and is not a report. */
  predicate NoReportAdded(before: seq<Audit>, later: seq<Audit>, now: Instant) {
    || later == before
    || (|later| > 0 && later == before + [later[|later| - 1]]
        && later[|later| - 1].reason != REASON && later[|later| - 1].createdAt == now)
  }

  lemma WriteBackAddsNoReport(db: Db, rows: seq<Row>, i: nat, state: MirroredState, event: Option<string>,
                              reason: string, now: Instant)
    requires InHand(db.rows, rows, i) && reason != REASON
    ensures var r := WriteBack(db, rows, i, state, event, reason, now);
            r.Synced? ==>
              && NoReportAdded(db.audits, r.db.audits, now)
              && forall k :: 0 <= k < |r.db.rows| && r.db.rows[k].pastDueSince.Some?
                             ==> CycleFrom(db.rows, k, r.db.rows[k], now)
  {
  }

  /** An overtaken first contact keeps the window it read, if it keeps one, to whatever is there by then. */
  lemma ContactAddsNoReport(db: Db, seen: Row, customer: string, state: MirroredState, reason: string, now: Instant)
    requires reason != REASON
    ensures var r := Contact(db, seen, customer, state, None, reason, now);
            r.Synced? ==>
              && NoReportAdded(db.audits, r.db.audits, now)
              && forall k :: 0 <= k < |r.db.rows| && r.db.rows[k].pastDueSince.Some?
                             ==> CycleFrom(db.rows, k, r.db.rows[k], now)
  {
  }

  lemma SupportWriteReportsNothing(db: Db, catalog: Catalog, w: Write, now: Instant)
    requires Ordinary(w) && !w.SyncOf? && !w.LateFirstContact? && !w.OvertakenContact?
    ensures var later := Writers.Apply(db, catalog, w, now);
            && NoReportAdded(db.audits, later.audits, now)
            && forall k :: 0 <= k < |later.rows| && later.rows[k].pastDueSince.Some?
                           ==> CycleFrom(db.rows, k, later.rows[k], now)
  {
  }

  /** After an ordinary write, a row's cycle is one that was already running, or starts now; and the
      write itself reported nothing. */
  lemma OrdinaryWriteReportsNothing(db: Db, catalog: Catalog, w: Write, now: Instant)
    requires UniqueRows(db.rows) && Ordinary(w)
    ensures var later := Writers.Apply(db, catalog, w, now);
            && NoReportAdded(db.audits, later.audits, now)
            && forall k :: 0 <= k < |later.rows| && later.rows[k].pastDueSince.Some?
                           ==> CycleFrom(db.rows, k, later.rows[k], now)
  {
    match w
    case SyncOf(customer, stripe, event, reason) =>
      if Sync(db, catalog, stripe, customer, event, reason, now).Synced? {
        var rows, i := SyncWritesBack(db, catalog, stripe, customer, event, reason, now);
        WriteBackAddsNoReport(db, rows, i, Project(catalog, stripe.Fetch(customer)), event, reason, now);
      }
    case LateFirstContact(customer, userId, answer, reason) =>
      ClaimedIsInHand(db.rows, customer, userId);
      var (rows, i) := Claimed(db.rows, customer, userId);
      WriteBackAddsNoReport(db, rows, i, Project(catalog, answer), None, reason, now);
    case OvertakenContact(seen, customer, answer, reason) =>
      ContactAddsNoReport(db, seen, customer, Project(catalog, answer), reason, now);
    case _ => SupportWriteReportsNothing(db, catalog, w, now);
  }

  lemma NoReportCounted(before: seq<Audit>, later: seq<Audit>, now: Instant, userId: string, since: Instant)
    requires NoReportAdded(before, later, now)
    ensures ReportsSince(later, userId, since) == ReportsSince(before, userId, since)
  {
    if later != before { OneMoreReport(before, later[|later| - 1], userId, since); }
  }

  lemma EventKeepsCycles(settings: Settings, db: Db, catalog: Catalog, e: Event, clock: Instant, now: Instant)
    requires CyclesOk(db, clock) && clock <= now && (e.Writes? ==> Ordinary(e.w))
    ensures CyclesOk(ApplyEvent(settings, db, catalog, e, now), now)
  {
    var later := ApplyEvent(settings, db, catalog, e, now);
    match e
    case Writes(w) =>
      EveryWriteKeepsUnique(db, catalog, w, now);
      OrdinaryWriteReportsNothing(db, catalog, w, now);
      forall k | 0 <= k < |later.rows| && later.rows[k].pastDueSince.Some? ensures OnceInCycle(later, later.rows[k], now) {
        var row := later.rows[k];
        NoReportCounted(db.audits, later.audits, now, row.userId, row.pastDueSince.value);
        if row.pastDueSince == Some(now) {
          NoReportsYet(db.audits, row.userId, now);
        } else {
          assert OnceInCycle(db, db.rows[k], clock);
        }
      }
    case Expires =>
      forall k | 0 <= k < |later.rows| && later.rows[k].pastDueSince.Some? ensures OnceInCycle(later, later.rows[k], now) {
        assert OnceInCycle(db, db.rows[k], clock);
        RunLeavesOne(settings, db, now, k);
      }
  }

  /** The count since a cycle began, after a run: one if the row was due and its cycle began before this
      instant, and then it was none; otherwise what it was. */
  lemma RunLeavesOne(settings: Settings, db: Db, now: Instant, k: nat)
    requires UniqueRows(db.rows) && k < |db.rows| && db.rows[k].pastDueSince.Some?
    requires db.rows[k].pastDueSince.value <= now
    requires forall i :: 0 <= i < |db.audits| ==> db.audits[i].createdAt <= now
    ensures var row := db.rows[k];
            ReportsSince(ExpireRun(settings, db, now).audits, row.userId, row.pastDueSince.value)
            == if Due(settings, db.audits, row, now) && row.pastDueSince.value < now then 1
               else ReportsSince(db.audits, row.userId, row.pastDueSince.value)
  {
    var row, n := db.rows[k], |db.rows|;
    var since := row.pastDueSince.value;
    var added := Reports(DueRows(settings, db, now, n), now);
    ReportsAdd(db.audits, added, row.userId, since);
    ReportedIffCounted(db.audits, row.userId, since);
    if since < now {
      forall i | 0 <= i < n && db.rows[i].userId == row.userId ensures i == k {
        assert i < k ==> !Conflict(db.rows[i], row);
        assert k < i ==> !Conflict(row, db.rows[i]);
      }
      RunReportsOnce(settings, db, now, n, k, since);
    } else {
      NoReportsYet(added, row.userId, since);
    }
  }

  /** In every reachable state, whatever the grace period, the cycle each row is in has been reported at
      most once since the instant it began. */
  lemma {:induction false} OneReportPerCycle(settings: Settings, catalog: Catalog, es: seq<(Event, Instant)>, clock: Instant)
    requires Orderly(es) && forall i :: 0 <= i < |es| ==> es[i].1 <= clock
    ensures CyclesOk(Nights(settings, Db([], [], [], map[]), catalog, es), clock)
  {
    if es != [] {
      var init, last := es[..|es| - 1], es[|es| - 1];
      assert forall i :: 0 <= i < |init| ==> init[i] == es[i];
      OneReportPerCycle(settings, catalog, init, last.1);
      EventKeepsCycles(settings, Nights(settings, Db([], [], [], map[]), catalog, init), catalog, last.0, last.1, last.1);
    }
  }

  /** And no expired cycle is missed: right after a run, every paying row out of its window, which with a
      grace period is one whose cycle began earlier, has been reported exactly once since; and the run
      wrote no row. */
  lemma EveryExpiredCycleIsReported(settings: Settings, catalog: Catalog, es: seq<(Event, Instant)>, now: Instant, k: nat)
    requires Orderly(es) && forall i :: 0 <= i < |es| ==> es[i].1 <= now
    ensures var db := Nights(settings, Db([], [], [], map[]), catalog, es);
            var after := ExpireRun(settings, db, now);
            && after.rows == db.rows
            && (k < |db.rows| && db.rows[k].mirror.tier != Tier.Free && GraceExpired(settings, db.rows[k], now)
                && (settings.grace > 0 || db.rows[k].pastDueSince.value < now) ==>
                  ReportsSince(after.audits, db.rows[k].userId, db.rows[k].pastDueSince.value) == 1)
  {
    OneReportPerCycle(settings, catalog, es, now);
    var db := Nights(settings, Db([], [], [], map[]), catalog, es);
    if k < |db.rows| && db.rows[k].mirror.tier != Tier.Free && GraceExpired(settings, db.rows[k], now) {
      assert OnceInCycle(db, db.rows[k], now);
      RunLeavesOne(settings, db, now, k);
      ReportedIffCounted(db.audits, db.rows[k].userId, db.rows[k].pastDueSince.value);
    }
  }

  // ---- a report dated at the very start of its cycle ----

  /** A report settles its cycle if and only if the cycle began before it; the query compares strictly. */
  lemma ReportSettlesIff(settings: Settings, audits: seq<Audit>, row: Row, now: Instant)
    requires Due(settings, audits, row, now)
    ensures AlreadyReported(audits + [ExpireGrace.Report(row, now)], row) <==> row.pastDueSince.value < now
  {
    var since, later := row.pastDueSince.value, audits + [ExpireGrace.Report(row, now)];
    ReportedIffCounted(audits, row.userId, since);
    ReportedIffCounted(later, row.userId, since);
    OneMoreReport(audits, ExpireGrace.Report(row, now), row.userId, since);
  }

  /** Reports of this user dated at one instant. */
  function ReportsOn(audits: seq<Audit>, userId: string, t: Instant): nat {
    if audits == [] then 0
    else
      ReportsOn(audits[..|audits| - 1], userId, t)
      + if IsReport(audits[|audits| - 1], userId) && audits[|audits| - 1].createdAt == t then 1 else 0
  }

  function RunsAt(es: seq<(Event, Instant)>, t: Instant): nat {
    if es == [] then 0
    else RunsAt(es[..|es| - 1], t) + if es[|es| - 1].0.Expires? && es[|es| - 1].1 == t then 1 else 0
  }

  lemma {:induction false} ReportsOnAdd(a: seq<Audit>, b: seq<Audit>, userId: string, t: Instant)
    ensures ReportsOn(a + b, userId, t) == ReportsOn(a, userId, t) + ReportsOn(b, userId, t)
  {
    if b == [] {
      assert a + b == a;
    } else {
      assert (a + b)[..|a + b| - 1] == a + b[..|b| - 1];
      ReportsOnAdd(a, b[..|b| - 1], userId, t);
    }
  }

  predicate Has(rows: seq<Row>, n: nat, userId: string)
    requires n <= |rows|
  {
    exists i :: 0 <= i < n && rows[i].userId == userId
  }

  /** A run dates one report of a user at its own instant, or none, and none at any other. */
  lemma {:induction false} RunDatesOnce(settings: Settings, db: Db, now: Instant, n: nat, userId: string, t: Instant)
    requires UniqueRows(db.rows) && n <= |db.rows|
    ensures ReportsOn(Reports(DueRows(settings, db, now, n), now), userId, t) <= if t == now && Has(db.rows, n, userId) then 1 else 0
  {
    if n > 0 {
      RunDatesOnce(settings, db, now, n - 1, userId, t);
      var before, row := DueRows(settings, db, now, n - 1), db.rows[n - 1];
      OneMore(before, row, now);
      ReportsOnAdd(Reports(before, now), [ExpireGrace.Report(row, now)], userId, t);
      assert [ExpireGrace.Report(row, now)][..0] == [] && before + [] == before;
      if Has(db.rows, n - 1, userId) {
        var i :| 0 <= i < n - 1 && db.rows[i].userId == userId;
        assert !Conflict(db.rows[i], row);
        assert Has(db.rows, n, userId);
      }
    }
  }

  lemma {:induction false} DatedByRuns(settings: Settings, catalog: Catalog, es: seq<(Event, Instant)>, userId: string, t: Instant)
    requires Orderly(es)
    ensures ReportsOn(Nights(settings, Db([], [], [], map[]), catalog, es).audits, userId, t) <= RunsAt(es, t)
  {
    hide Writers.Apply, GraceExpired;
    if es != [] {
      var init, last := es[..|es| - 1], es[|es| - 1];
      assert forall i :: 0 <= i < |init| ==> init[i] == es[i];
      DatedByRuns(settings, catalog, init, userId, t);
      OneReportPerCycle(settings, catalog, init, last.1);
      var db := Nights(settings, Db([], [], [], map[]), catalog, init);
      EventDates(settings, db, catalog, last.0, last.1, userId, t);
    }
  }

  lemma EventDates(settings: Settings, db: Db, catalog: Catalog, e: Event, now: Instant, userId: string, t: Instant)
    requires UniqueRows(db.rows) && (e.Writes? ==> Ordinary(e.w))
    ensures ReportsOn(ApplyEvent(settings, db, catalog, e, now).audits, userId, t)
            <= ReportsOn(db.audits, userId, t) + if e.Expires? && now == t then 1 else 0
  {
    match e
    case Writes(w) =>
      OrdinaryWriteReportsNothing(db, catalog, w, now);
      var later := Writers.Apply(db, catalog, w, now).audits;
      if later != db.audits {
        assert later[..|db.audits|] == db.audits;
      }
    case Expires =>
      RunDatesOnce(settings, db, now, |db.rows|, userId, t);
      ReportsOnAdd(db.audits, Reports(DueRows(settings, db, now, |db.rows|), now), userId, t);
  }

  /** All the reports of a cycle, for any grace period, positive or not: one dated after it began at most,
      and at most one for each run at the very instant it began. So one in all when no run fell on that
      instant, and two when no two runs share an instant. */
  lemma ReportsInACycle(settings: Settings, catalog: Catalog, es: seq<(Event, Instant)>, clock: Instant, k: nat)
    requires Orderly(es) && forall i :: 0 <= i < |es| ==> es[i].1 <= clock
    ensures var db := Nights(settings, Db([], [], [], map[]), catalog, es);
            k < |db.rows| && db.rows[k].pastDueSince.Some? ==>
              var since := db.rows[k].pastDueSince.value;
              && ReportsSince(db.audits, db.rows[k].userId, since) <= 1
              && ReportsOn(db.audits, db.rows[k].userId, since) <= RunsAt(es, since)
  {
    OneReportPerCycle(settings, catalog, es, clock);
    var db := Nights(settings, Db([], [], [], map[]), catalog, es);
    if k < |db.rows| && db.rows[k].pastDueSince.Some? {
      assert OnceInCycle(db, db.rows[k], clock);
      DatedByRuns(settings, catalog, es, db.rows[k].userId, db.rows[k].pastDueSince.value);
    }
  }

  lemma {:induction false} DistinctRuns(es: seq<(Event, Instant)>, t: Instant)
    requires forall i, j :: 0 <= i < j < |es| && es[i].0.Expires? && es[j].0.Expires? ==> es[i].1 != es[j].1
    ensures RunsAt(es, t) <= if exists i :: 0 <= i < |es| && es[i].0.Expires? && es[i].1 == t then 1 else 0
  {
    if es != [] {
      var init := es[..|es| - 1];
      assert forall i :: 0 <= i < |init| ==> init[i] == es[i];
      DistinctRuns(init, t);
    }
  }

  lemma AtMostTwoReports(settings: Settings, catalog: Catalog, es: seq<(Event, Instant)>, clock: Instant, k: nat)
    requires Orderly(es) && forall i :: 0 <= i < |es| ==> es[i].1 <= clock
    requires forall i, j :: 0 <= i < j < |es| && es[i].0.Expires? && es[j].0.Expires? ==> es[i].1 != es[j].1
    ensures var db := Nights(settings, Db([], [], [], map[]), catalog, es);
            k < |db.rows| && db.rows[k].pastDueSince.Some? ==>
              var u, since := db.rows[k].userId, db.rows[k].pastDueSince.value;
              ReportsOn(db.audits, u, since) + ReportsSince(db.audits, u, since)
              <= if exists i :: 0 <= i < |es| && es[i].0.Expires? && es[i].1 == since then 2 else 1
  {
    ReportsInACycle(settings, catalog, es, clock, k);
    var db := Nights(settings, Db([], [], [], map[]), catalog, es);
    if k < |db.rows| && db.rows[k].pastDueSince.Some? {
      DistinctRuns(es, db.rows[k].pastDueSince.value);
    }
  }

  /** Two do happen: with no grace period, a run on the instant a cycle begins reports it, a later one
      reports it again, and every one after that is silent. */
  lemma NoGraceReportsTwice(settings: Settings, row: Row, first: Instant, second: Instant, third: Instant)
    requires settings.grace <= 0 && first < second <= third
    requires row.mirror.status.PastDue? && row.mirror.tier != Tier.Free && row.pastDueSince == Some(first)
    ensures var once := ExpireRun(settings, Db([row], [], [], map[]), first);
            var twice := ExpireRun(settings, once, second);
            && twice.audits == [ExpireGrace.Report(row, first), ExpireGrace.Report(row, second)]
            && ExpireRun(settings, twice, third) == twice
  {
    var db := Db([row], [], [], map[]);
    OneRowRun(settings, db, row, first);
    var once := ExpireRun(settings, db, first);
    ReportSettlesIff(settings, [], row, first);
    OneRowRun(settings, once, row, second);
    var twice := ExpireRun(settings, once, second);
    ReportSettlesIff(settings, once.audits, row, second);
    OneRowRun(settings, twice, row, third);
  }

  lemma OneRowRun(settings: Settings, db: Db, row: Row, now: Instant)
    requires db.rows == [row]
    ensures ExpireRun(settings, db, now)
            == if Due(settings, db.audits, row, now) then db.(audits := db.audits + [ExpireGrace.Report(row, now)]) else db
  {
    assert DueRows(settings, db, now, 0) == [];
    assert DueRows(settings, db, now, 1) == if Due(settings, db.audits, row, now) then [row] else [];
    assert db.audits + [] == db.audits;
  }

  // ---- extensions, which move a cycle's start ----

  /** Every write but one that appends entries of its own, or goes by the report's own reason. */
  predicate Silent(w: Write) {
    Ordinary(w) || w.Extend?
  }

  lemma SilentWriteReportsNothing(db: Db, catalog: Catalog, w: Write, now: Instant)
    requires UniqueRows(db.rows) && Silent(w)
    ensures NoReportAdded(db.audits, Writers.Apply(db, catalog, w, now).audits, now)
  {
    if !w.Extend? { OrdinaryWriteReportsNothing(db, catalog, w, now); }
  }

  /** An extended row is reported, again or for the first time, if and only if its moved window is over by
      then and every earlier report of its user is dated at or before the moved start. */
  lemma ExtendedRowIsReportedIff(settings: Settings, db: Db, catalog: Catalog, seen: Row, days: int, at: Instant,
                                 now: Instant, k: nat)
    requires UniqueRows(db.rows) && k < |db.rows| && db.rows[k].userId == seen.userId && seen.pastDueSince.Some?
    requires db.rows[k].mirror.status.PastDue? && db.rows[k].mirror.tier != Tier.Free
    requires at < now && forall i :: 0 <= i < |db.audits| ==> db.audits[i].createdAt <= at
    ensures var since := seen.pastDueSince.value + days * DAY;
            var after := ExpireRun(settings, Writers.Apply(db, catalog, Extend(seen, days), at), now);
            ReportsSince(after.audits, seen.userId, at)
            == if since + settings.grace <= now && !ReportedAfter(db.audits, seen.userId, since) then 1 else 0
  {
    var extended := Writers.Apply(db, catalog, Extend(seen, days), at);
    var since := seen.pastDueSince.value + days * DAY;
    FindIs(db.rows, ByUser(seen.userId), k);
    EveryWriteKeepsUnique(db, catalog, Extend(seen, days), at);
    SilentWriteReportsNothing(db, catalog, Extend(seen, days), at);
    NoReportCounted(db.audits, extended.audits, at, seen.userId, since);
    NoReportCounted(db.audits, extended.audits, at, seen.userId, at);
    ReportedIffCounted(db.audits, seen.userId, since);
    ReportedIffCounted(extended.audits, seen.userId, since);
    NoReportsYet(db.audits, seen.userId, at);
    RunReportsTheUser(settings, extended, now, k, at);
  }

  /** What a run adds to the count of a user with a row. */
  lemma RunReportsTheUser(settings: Settings, db: Db, now: Instant, k: nat, floor: Instant)
    requires UniqueRows(db.rows) && k < |db.rows| && floor < now
    ensures ReportsSince(ExpireRun(settings, db, now).audits, db.rows[k].userId, floor)
            == ReportsSince(db.audits, db.rows[k].userId, floor) + if Due(settings, db.audits, db.rows[k], now) then 1 else 0
  {
    forall i | 0 <= i < |db.rows| && db.rows[i].userId == db.rows[k].userId ensures i == k {
      assert i < k ==> !Conflict(db.rows[i], db.rows[k]);
      assert k < i ==> !Conflict(db.rows[k], db.rows[i]);
    }
    RunReportsOnce(settings, db, now, |db.rows|, k, floor);
    ReportsAdd(db.audits, Reports(DueRows(settings, db, now, |db.rows|), now), db.rows[k].userId, floor);
  }

  lemma {:induction false} NobodyIsReported(settings: Settings, db: Db, now: Instant, n: nat, userId: string, floor: Instant)
    requires n <= |db.rows| && floor < now && !Has(db.rows, |db.rows|, userId)
    ensures ReportsSince(Reports(DueRows(settings, db, now, n), now), userId, floor) == 0
  {
    if n > 0 {
      NobodyIsReported(settings, db, now, n - 1, userId, floor);
      DueStep(settings, db, now, n - 1, userId, floor);
    }
  }

  /** A user's cut-off has started and nothing dated after its start has reported it. */
  predicate Unreported(db: Db, userId: string) {
    var row := RowFor(db.rows, userId);
    row.pastDueSince.Some? && !ReportedAfter(db.audits, userId, row.pastDueSince.value)
  }

  /** This event starts the user's cut-off, or moves it. */
  predicate Moves(before: Db, later: Db, userId: string) {
    var row := RowFor(later.rows, userId);
    row.pastDueSince.Some? && row.pastDueSince != RowFor(before.rows, userId).pastDueSince
  }

  /** This event is a run that reports the user no later than at its very start. */
  predicate ReportsEarly(settings: Settings, db: Db, e: Event, now: Instant, userId: string) {
    var row := RowFor(db.rows, userId);
    e.Expires? && Due(settings, db.audits, row, now) && row.pastDueSince.Some? && now <= row.pastDueSince.value
  }

  function Starts(settings: Settings, catalog: Catalog, es: seq<(Event, Instant)>, userId: string): nat {
    if es == [] then 0
    else
      var init := es[..|es| - 1];
      Starts(settings, catalog, init, userId)
      + if Moves(Nights(settings, Db([], [], [], map[]), catalog, init), Nights(settings, Db([], [], [], map[]), catalog, es), userId)
        then 1 else 0
  }

  function EarlyReports(settings: Settings, catalog: Catalog, es: seq<(Event, Instant)>, userId: string): nat {
    if es == [] then 0
    else
      var init, last := es[..|es| - 1], es[|es| - 1];
      EarlyReports(settings, catalog, init, userId)
      + if ReportsEarly(settings, Nights(settings, Db([], [], [], map[]), catalog, init), last.0, last.1, userId) then 1 else 0
  }

  /** Every report but an early one uses up a start. */
  lemma EventPaysForReports(settings: Settings, db: Db, catalog: Catalog, e: Event, now: Instant, userId: string, floor: Instant)
    requires UniqueRows(db.rows) && floor < now && (e.Writes? ==> Silent(e.w))
    ensures var later := ApplyEvent(settings, db, catalog, e, now);
            && UniqueRows(later.rows)
            && ReportsSince(later.audits, userId, floor) + (if Unreported(later, userId) then 1 else 0)
               <= ReportsSince(db.audits, userId, floor) + (if Unreported(db, userId) then 1 else 0)
                  + (if Moves(db, later, userId) then 1 else 0) + (if ReportsEarly(settings, db, e, now, userId) then 1 else 0)
  {
    match e
    case Writes(w) =>
      EveryWriteKeepsUnique(db, catalog, w, now);
      SilentWriteReportsNothing(db, catalog, w, now);
      WritePays(db, Writers.Apply(db, catalog, w, now), now, userId, floor);
    case Expires => RunPays(settings, db, now, userId, floor);
  }

  lemma WritePays(db: Db, later: Db, now: Instant, userId: string, floor: Instant)
    requires NoReportAdded(db.audits, later.audits, now)
    ensures ReportsSince(later.audits, userId, floor) == ReportsSince(db.audits, userId, floor)
    ensures Unreported(later, userId) ==> Unreported(db, userId) || Moves(db, later, userId)
  {
    NoReportCounted(db.audits, later.audits, now, userId, floor);
    var row := RowFor(later.rows, userId);
    if row.pastDueSince.Some? {
      NoReportCounted(db.audits, later.audits, now, userId, row.pastDueSince.value);
      ReportedIffCounted(db.audits, userId, row.pastDueSince.value);
      ReportedIffCounted(later.audits, userId, row.pastDueSince.value);
    }
  }

  lemma RunPays(settings: Settings, db: Db, now: Instant, userId: string, floor: Instant)
    requires UniqueRows(db.rows) && floor < now
    ensures var later := ExpireRun(settings, db, now);
            ReportsSince(later.audits, userId, floor) + (if Unreported(later, userId) then 1 else 0)
            <= ReportsSince(db.audits, userId, floor) + (if Unreported(db, userId) then 1 else 0)
               + (if ReportsEarly(settings, db, Expires, now, userId) then 1 else 0)
  {
    var later := ExpireRun(settings, db, now);
    match Find(db.rows, ByUser(userId))
    case None =>
      NobodyIsReported(settings, db, now, |db.rows|, userId, floor);
      ReportsAdd(db.audits, Reports(DueRows(settings, db, now, |db.rows|), now), userId, floor);
    case Some(k) =>
      var row := db.rows[k];
      RunReportsTheUser(settings, db, now, k, floor);
      if row.pastDueSince.Some? {
        var since := row.pastDueSince.value;
        ReportedIffCounted(db.audits, userId, since);
        ReportedIffCounted(later.audits, userId, since);
        if since < now {
          RunReportsTheUser(settings, db, now, k, since);
        } else {
          ReportsAdd(db.audits, Reports(DueRows(settings, db, now, |db.rows|), now), userId, since);
        }
      }
  }

  ghost predicate SilentAfter(es: seq<(Event, Instant)>, floor: Instant) {
    forall i :: 0 <= i < |es| ==> floor < es[i].1 && (es[i].0.Writes? ==> Silent(es[i].0.w))
  }

  /** Over any run of nights, support's extensions and everybody's writes, overtaken ones included, and
      whatever the clock did, a user is reported at most once for each time their cut-off was started or
      moved, not counting reports dated at or before the start they report. */
  lemma {:induction false} OneReportPerStart(settings: Settings, catalog: Catalog, es: seq<(Event, Instant)>, userId: string, floor: Instant)
    requires SilentAfter(es, floor)
    ensures var db := Nights(settings, Db([], [], [], map[]), catalog, es);
            && UniqueRows(db.rows)
            && ReportsSince(db.audits, userId, floor) + (if Unreported(db, userId) then 1 else 0)
               <= Starts(settings, catalog, es, userId) + EarlyReports(settings, catalog, es, userId)
  {
    if es != [] {
      var init, last := es[..|es| - 1], es[|es| - 1];
      assert forall i :: 0 <= i < |init| ==> init[i] == es[i];
      OneReportPerStart(settings, catalog, init, userId, floor);
      EventPaysForReports(settings, Nights(settings, Db([], [], [], map[]), catalog, init), catalog, last.0, last.1, userId, floor);
    }
  }

  /** With a grace period there are no such reports. */
  lemma {:induction false} NoEarlyReports(settings: Settings, catalog: Catalog, es: seq<(Event, Instant)>, userId: string)
    requires settings.grace > 0
    ensures EarlyReports(settings, catalog, es, userId) == 0
  {
    if es != [] { NoEarlyReports(settings, catalog, es[..|es| - 1], userId); }
  }

  // ---- runs that overlap ----

  /** A run that lands on other tables than the ones it scanned. */
  function LateRun(settings: Settings, db: Db, seen: Db, now: Instant): Db {
    db.(audits := db.audits + Reports(DueRows(settings, seen, now, |seen.rows|), now))
  }

  /** The query reads what is committed. Of two runs that scan before either commits, both report every
      cycle that is due at the first. */
  lemma OverlappingRunsReportTwice(settings: Settings, db: Db, first: Instant, second: Instant, k: nat)
    requires UniqueRows(db.rows) && k < |db.rows| && Due(settings, db.audits, db.rows[k], first)
    requires db.rows[k].pastDueSince.value < first <= second
    ensures ReportsSince(LateRun(settings, ExpireRun(settings, db, first), db, second).audits,
                         db.rows[k].userId, db.rows[k].pastDueSince.value) == 2
  {
    var row, once := db.rows[k], ExpireRun(settings, db, first);
    var since := row.pastDueSince.value;
    ReportedIffCounted(db.audits, row.userId, since);
    RunReportsTheUser(settings, db, first, k, since);
    RunReportsTheUser(settings, db, second, k, since);
    var added := Reports(DueRows(settings, db, second, |db.rows|), second);
    ReportsAdd(db.audits, added, row.userId, since);
    ReportsAdd(once.audits, added, row.userId, since);
  }
}
