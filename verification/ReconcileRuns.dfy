/** What whole reconcile runs come to. */
module ReconcileRuns {
  import opened Models
  import opened Subscriptions
  import opened Reconcile

  /** Nobody is known to have left. */
  predicate NobodyGone(env: Env) {
    forall u :: u in env.gone ==> !env.gone[u]
  }

  predicate Stamped(users: map<string, string>, customer: string, user: string) {
    customer in users && users[customer] == user && user != ""
  }

  /** Each user has one customer, in Stripe and in the table. */
  ghost predicate OneCustomerEach(rows: seq<Row>, users: map<string, string>) {
    && (forall c, d, u :: Stamped(users, c, u) && Stamped(users, d, u) ==> c == d)
    && (forall i, c :: 0 <= i < |rows| && rows[i].customerId.Some? && Stamped(users, c, rows[i].userId)
                       ==> rows[i].customerId == Some(c))
  }

  /** What one customer's row should say about access. */
  function Truth(env: Env, stripe: Stripe, customer: string): MirroredState {
    Project(env.catalog, stripe.Fetch(customer))
  }

  /** The customer's row, if there is one, decides access as Stripe's current subscription does. */
  predicate Right(db: Db, env: Env, stripe: Stripe, customer: string) {
    var row := LocalRow(db, customer);
    row.Some? ==> Agrees(row.value, Truth(env, stripe, customer))
  }

  /** The same subscriptions and customers; metadata may differ. */
  predicate SameStripe(a: Stripe, b: Stripe) {
    a.subs == b.subs && a.users == b.users
  }

  lemma TruthIgnoresMetadata(env: Env, a: Stripe, b: Stripe, customer: string)
    requires SameStripe(a, b)
    ensures Truth(env, a, customer) == Truth(env, b, customer)
    ensures a.UserOf(customer) == b.UserOf(customer)
  {
  }

  predicate IsOf(remote: RemoteSubscription, customer: string) {
    NamesCustomer(remote) && remote.customerId.value == customer
  }

  lemma CheckKeepsStripe(r: Report, db: Db, stripe: Stripe, env: Env, remote: RemoteSubscription, customer: string, turn: Turn)
    ensures SameStripe(Check(r, db, stripe, env, remote, customer, turn).stripe, stripe)
  {
  }

  lemma OnlyRepairsWrite(p: Pass, env: Env, id: string, customer: string, c: Checked, r: SyncResult, fault: Fault)
    ensures var q := Concluded(p, env, id, customer, c, r, fault);
            q.stripe == c.stripe && (q.db == p.db || (r.Synced? && q.db == r.db))
  {
  }

  /** The sync by which a visit repairs its customer. */
  function SyncIn(p: Pass, env: Env, remote: RemoteSubscription, turn: Turn): SyncResult
    requires NamesCustomer(remote)
  {
    var c := CheckIn(p, env, remote, turn);
    Sync(p.db, env.catalog, c.stripe, remote.customerId.value, None, Reason(c.outcome), turn.now)
  }

  /** A visit writes the tables by one sync of its own customer, or not at all. */
  lemma VisitSyncs(p: Pass, env: Env, remote: RemoteSubscription, turn: Turn)
    ensures var q := Visit(p, env, remote, turn);
            && SameStripe(q.stripe, p.stripe)
            && (q.db == p.db
                || (NamesCustomer(remote) && SyncIn(p, env, remote, turn).Synced? && q.db == SyncIn(p, env, remote, turn).db))
  {
    if NamesCustomer(remote) {
      var customer, c := remote.customerId.value, CheckIn(p, env, remote, turn);
      CheckKeepsStripe(p.report.(checked := p.report.checked + 1), p.db, p.stripe, env, remote, customer, turn);
      OnlyRepairsWrite(p, env, remote.id, customer, c, Repaired(p.db, c.stripe, env, customer, c.outcome, turn), turn.fault);
    }
  }

  lemma SyncKeepsOneCustomerEach(db: Db, catalog: Catalog, stripe: Stripe, customer: string, reason: string, now: Instant)
    requires UniqueRows(db.rows) && OneCustomerEach(db.rows, stripe.users)
    ensures var r := Sync(db, catalog, stripe, customer, None, reason, now);
            r.Synced? ==> OneCustomerEach(r.db.rows, stripe.users)
  {
    var r := Sync(db, catalog, stripe, customer, None, reason, now);
    if r.Synced? {
      var rows, i := SyncWritesBack(db, catalog, stripe, customer, None, reason, now);
      var after := r.db.rows;
      assert |after| == |rows| && after[i].userId == rows[i].userId && after[i].customerId == rows[i].customerId;
      forall k, c | 0 <= k < |after| && after[k].customerId.Some? && Stamped(stripe.users, c, after[k].userId)
        ensures after[k].customerId == Some(c)
      {
        if k != i || rows == db.rows {
          assert Stamped(stripe.users, c, db.rows[k].userId);
        } else {
          assert Stamped(stripe.users, customer, after[k].userId);
        }
      }
    }
  }

  /** What the run keeps: a valid table, one customer a user, and Stripe's subscriptions as they were. */
  ghost predicate Sound(p: Pass, stripe: Stripe) {
    UniqueRows(p.db.rows) && OneCustomerEach(p.db.rows, stripe.users) && SameStripe(p.stripe, stripe)
  }

  lemma VisitKeepsTable(p: Pass, env: Env, remote: RemoteSubscription, turn: Turn, stripe: Stripe)
    requires Sound(p, stripe)
    ensures Sound(Visit(p, env, remote, turn), stripe)
  {
    VisitSyncs(p, env, remote, turn);
    if Visit(p, env, remote, turn).db != p.db {
      var c := CheckIn(p, env, remote, turn);
      CheckKeepsStripe(p.report.(checked := p.report.checked + 1), p.db, p.stripe, env, remote, remote.customerId.value, turn);
      SyncKeepsTable(p.db, env.catalog, c.stripe, remote.customerId.value, None, Reason(c.outcome), turn.now);
      SyncKeepsOneCustomerEach(p.db, env.catalog, c.stripe, remote.customerId.value, Reason(c.outcome), turn.now);
    }
  }

  /** Nobody else's row moves. */
  lemma VisitFrame(p: Pass, env: Env, remote: RemoteSubscription, turn: Turn, other: string)
    requires Sound(p, p.stripe) && !IsOf(remote, other)
    ensures LocalRow(Visit(p, env, remote, turn).db, other) == LocalRow(p.db, other)
  {
    VisitSyncs(p, env, remote, turn);
    if Visit(p, env, remote, turn).db != p.db {
      var c, customer := CheckIn(p, env, remote, turn), remote.customerId.value;
      CheckKeepsStripe(p.report.(checked := p.report.checked + 1), p.db, p.stripe, env, remote, customer, turn);
      assert forall u :: c.stripe.UserOf(customer) == Some(u) ==> Stamped(c.stripe.users, customer, u);
      SyncFrame(p.db, env.catalog, c.stripe, customer, None, Reason(c.outcome), turn.now, other);
    }
  }

  predicate SameAccess(a: MirroredState, b: MirroredState) {
    a.tier == b.tier && a.status == b.status
  }

  lemma FailedOnlyGrows(p: Pass, env: Env, remote: RemoteSubscription, turn: Turn, customer: string)
    ensures customer in p.report.failed ==> customer in Visit(p, env, remote, turn).report.failed
  {
    if NamesCustomer(remote) {
      var c := CheckIn(p, env, remote, turn);
      assert c.report.failed == p.report.failed;
    }
  }

  /** A check that does not fail either leaves the tables alone, or syncs what it was to repair. */
  lemma CheckThatLands(p: Pass, env: Env, remote: RemoteSubscription, turn: Turn)
    requires NamesCustomer(remote) && remote.customerId.value !in Visit(p, env, remote, turn).report.failed
    ensures var c, q := CheckIn(p, env, remote, turn), Visit(p, env, remote, turn);
            && !c.outcome.NotClassified?
            && (!Repairs(env, c.outcome) ==> q.db == p.db)
            && (Repairs(env, c.outcome) ==>
                  var r := SyncIn(p, env, remote, turn);
                  !r.IntegrityError? && q.db == if r.Synced? then r.db else p.db)
  {
  }

  lemma CheckOfThePresent(p: Pass, env: Env, remote: RemoteSubscription, turn: Turn)
    requires NobodyGone(env) && NamesCustomer(remote) && !CheckIn(p, env, remote, turn).outcome.NotClassified?
    ensures var c, local := CheckIn(p, env, remote, turn), LocalRow(p.db, remote.customerId.value);
            && (c.outcome.Ignoring? ==> local.None?)
            && (!c.outcome.Ignoring? ==> c.outcome == Compared(env, remote, local))
            && SameStripe(c.stripe, p.stripe)
  {
  }

  /** A visit to one of a customer's subscriptions leaves the row right if it was, and makes it right
      if the subscription visited gives the same access as the current one. */
  lemma VisitRights(p: Pass, env: Env, remote: RemoteSubscription, turn: Turn, customer: string)
    requires UniqueRows(p.db.rows) && NobodyGone(env) && !env.dryRun && IsOf(remote, customer)
    requires customer !in Visit(p, env, remote, turn).report.failed
    requires Right(p.db, env, p.stripe, customer)
             || SameAccess(Project(env.catalog, Some(remote)), Truth(env, p.stripe, customer))
    ensures Right(Visit(p, env, remote, turn).db, env, p.stripe, customer)
  {
    CheckThatLands(p, env, remote, turn);
    CheckOfThePresent(p, env, remote, turn);
    var c := CheckIn(p, env, remote, turn);
    TruthIgnoresMetadata(env, p.stripe, c.stripe, customer);
    SyncKeepsTable(p.db, env.catalog, c.stripe, customer, None, Reason(c.outcome), turn.now);
  }

  // ---- one run ----

  lemma {:induction false} PassKeepsTable(start: Pass, env: Env, listing: seq<RemoteSubscription>, turns: seq<Turn>, n: nat)
    requires n <= |listing| == |turns| && Sound(start, start.stripe)
    ensures Sound(VisitAll(start, env, listing, turns, n), start.stripe)
  {
    hide Visit;
    if n > 0 {
      PassKeepsTable(start, env, listing, turns, n - 1);
      VisitKeepsTable(VisitAll(start, env, listing, turns, n - 1), env, listing[n - 1], turns[n - 1], start.stripe);
    }
  }

  /** Any visit leaves the row right if it was; the visit to the current subscription makes it right. */
  lemma VisitKeepsRight(p: Pass, env: Env, remote: RemoteSubscription, turn: Turn, stripe: Stripe, customer: string)
    requires Sound(p, stripe) && NobodyGone(env) && !env.dryRun
    requires customer !in Visit(p, env, remote, turn).report.failed
    requires Right(p.db, env, stripe, customer)
             || (IsOf(remote, customer) && SameAccess(Project(env.catalog, Some(remote)), Truth(env, stripe, customer)))
    ensures Right(Visit(p, env, remote, turn).db, env, stripe, customer)
  {
    TruthIgnoresMetadata(env, stripe, p.stripe, customer);
    if IsOf(remote, customer) {
      VisitRights(p, env, remote, turn, customer);
    } else {
      VisitFrame(p, env, remote, turn, customer);
    }
  }

  /** From the visit to its current subscription on, a customer's row is right. */
  lemma {:induction false} RightFromThereOn(start: Pass, env: Env, listing: seq<RemoteSubscription>, turns: seq<Turn>,
                                            customer: string, k: nat, n: nat)
    requires k < n <= |listing| == |turns| && Sound(start, start.stripe)
    requires NobodyGone(env) && !env.dryRun && IsOf(listing[k], customer)
    requires SameAccess(Project(env.catalog, Some(listing[k])), Truth(env, start.stripe, customer))
    requires customer !in VisitAll(start, env, listing, turns, n).report.failed
    ensures Right(VisitAll(start, env, listing, turns, n).db, env, start.stripe, customer)
  {
    hide Visit;
    var p := VisitAll(start, env, listing, turns, n - 1);
    PassKeepsTable(start, env, listing, turns, n - 1);
    FailedOnlyGrows(p, env, listing[n - 1], turns[n - 1], customer);
    if k < n - 1 { RightFromThereOn(start, env, listing, turns, customer, k, n - 1); }
    VisitKeepsRight(p, env, listing[n - 1], turns[n - 1], start.stripe, customer);
  }

  /** What Stripe answers for this customer is in the list. */
  ghost predicate ListsCurrent(listing: seq<RemoteSubscription>, stripe: Stripe, customer: string) {
    && stripe.Fetch(customer).Some?
    && exists j :: 0 <= j < |listing| && IsOf(listing[j], customer) && listing[j] == stripe.Fetch(customer).value
  }

  /** One full run, whatever the tables said before and whoever else failed: every listed customer that
      did not fail has, if it has a row, the access its current subscription gives, however many
      subscriptions it has and in whatever order they are listed. */
  lemma ReconcileMakesRight(db: Db, stripe: Stripe, env: Env, listing: seq<RemoteSubscription>, turns: seq<Turn>, customer: string)
    requires |listing| == |turns| && UniqueRows(db.rows) && OneCustomerEach(db.rows, stripe.users)
    requires NobodyGone(env) && !env.dryRun && ListsCurrent(listing, stripe, customer)
    ensures var q := VisitAll(Started(db, stripe), env, listing, turns, |listing|);
            customer !in q.report.failed ==> Right(q.db, env, stripe, customer)
  {
    var j :| 0 <= j < |listing| && IsOf(listing[j], customer) && listing[j] == stripe.Fetch(customer).value;
    if customer !in VisitAll(Started(db, stripe), env, listing, turns, |listing|).report.failed {
      RightFromThereOn(Started(db, stripe), env, listing, turns, customer, j, |listing|);
    }
  }

  // ---- the next run ----

  /** How many of a customer's subscriptions a run finds its row to disagree with. */
  function Drifts(start: Pass, env: Env, listing: seq<RemoteSubscription>, turns: seq<Turn>, customer: string, n: nat): nat
    requires n <= |listing| == |turns|
  {
    if n == 0 then 0
    else
      Drifts(start, env, listing, turns, customer, n - 1)
      + if IsOf(listing[n - 1], customer)
           && OutcomeOf(VisitAll(start, env, listing, turns, n - 1), env, listing[n - 1], turns[n - 1]).Mismatched?
        then 1 else 0
  }

  /** How many of them give other access than the current one. */
  function Strays(env: Env, stripe: Stripe, listing: seq<RemoteSubscription>, customer: string, n: nat): nat
    requires n <= |listing|
  {
    if n == 0 then 0
    else
      Strays(env, stripe, listing, customer, n - 1)
      + if IsOf(listing[n - 1], customer)
           && !SameAccess(Project(env.catalog, Some(listing[n - 1])), Truth(env, stripe, customer))
        then 1 else 0
  }

  lemma VisitToTheRight(p: Pass, env: Env, remote: RemoteSubscription, turn: Turn, customer: string)
    requires UniqueRows(p.db.rows) && NobodyGone(env) && IsOf(remote, customer)
    requires LocalRow(p.db, customer).Some? && Right(p.db, env, p.stripe, customer)
    requires customer !in Visit(p, env, remote, turn).report.failed
    ensures var q, same := Visit(p, env, remote, turn), SameAccess(Project(env.catalog, Some(remote)), Truth(env, p.stripe, customer));
            && LocalRow(q.db, customer).Some? && Right(q.db, env, p.stripe, customer)
            && (OutcomeOf(p, env, remote, turn).Mismatched? <==> !same)
            && (same ==> LocalRow(q.db, customer) == LocalRow(p.db, customer))
  {
    CheckThatLands(p, env, remote, turn);
    CheckOfThePresent(p, env, remote, turn);
    var c := CheckIn(p, env, remote, turn);
    TruthIgnoresMetadata(env, p.stripe, c.stripe, customer);
    SyncKeepsTable(p.db, env.catalog, c.stripe, customer, None, Reason(c.outcome), turn.now);
  }

  /** Any visit to a right row leaves it right, and finds drift just when it visits a stray. */
  lemma VisitFindsStrays(p: Pass, env: Env, remote: RemoteSubscription, turn: Turn, stripe: Stripe, customer: string)
    requires Sound(p, stripe) && NobodyGone(env) && customer !in Visit(p, env, remote, turn).report.failed
    requires LocalRow(p.db, customer).Some? && Right(p.db, env, stripe, customer)
    ensures var q, stray := Visit(p, env, remote, turn), !SameAccess(Project(env.catalog, Some(remote)), Truth(env, stripe, customer));
            && LocalRow(q.db, customer).Some? && Right(q.db, env, stripe, customer)
            && (IsOf(remote, customer) ==> (OutcomeOf(p, env, remote, turn).Mismatched? <==> stray))
            && (LocalRow(q.db, customer) == LocalRow(p.db, customer) || (IsOf(remote, customer) && stray))
  {
    TruthIgnoresMetadata(env, stripe, p.stripe, customer);
    if IsOf(remote, customer) {
      VisitToTheRight(p, env, remote, turn, customer);
    } else {
      VisitFrame(p, env, remote, turn, customer);
    }
  }

  /** Where the first run left the row right, a second one reports drift exactly as often as the
      customer has a subscription giving other access than the current one; with none, it does not touch
      the row. A dry second run reports the same. */
  lemma {:induction false} SecondRunDriftsExactly(start: Pass, env: Env, listing: seq<RemoteSubscription>, turns: seq<Turn>,
                                                  customer: string, n: nat)
    requires n <= |listing| == |turns| && Sound(start, start.stripe)
    requires NobodyGone(env) && LocalRow(start.db, customer).Some? && Right(start.db, env, start.stripe, customer)
    requires customer !in VisitAll(start, env, listing, turns, n).report.failed
    ensures Drifts(start, env, listing, turns, customer, n) == Strays(env, start.stripe, listing, customer, n)
    ensures var q := VisitAll(start, env, listing, turns, n);
            && LocalRow(q.db, customer).Some? && Right(q.db, env, start.stripe, customer)
            && (Strays(env, start.stripe, listing, customer, n) == 0 ==> LocalRow(q.db, customer) == LocalRow(start.db, customer))
  {
    hide Visit;
    if n > 0 {
      var p := VisitAll(start, env, listing, turns, n - 1);
      PassKeepsTable(start, env, listing, turns, n - 1);
      FailedOnlyGrows(p, env, listing[n - 1], turns[n - 1], customer);
      SecondRunDriftsExactly(start, env, listing, turns, customer, n - 1);
      VisitFindsStrays(p, env, listing[n - 1], turns[n - 1], start.stripe, customer);
    }
  }

  // ---- what is counted ----

  /** What each of the first `n` subscriptions turned out to be, when its turn came. */
  function Outcomes(start: Pass, env: Env, listing: seq<RemoteSubscription>, turns: seq<Turn>, n: nat): (os: seq<Outcome>)
    requires n <= |listing| == |turns|
    ensures |os| == n
  {
    if n == 0 then []
    else
      Outcomes(start, env, listing, turns, n - 1)
      + [OutcomeOf(VisitAll(start, env, listing, turns, n - 1), env, listing[n - 1], turns[n - 1])]
  }

  function Count(os: seq<Outcome>, o: Outcome): nat {
    if os == [] then 0 else Count(os[..|os| - 1], o) + if os[|os| - 1] == o then 1 else 0
  }

  lemma OneMoreOutcome(os: seq<Outcome>, it: Outcome, o: Outcome)
    ensures Count(os + [it], o) == Count(os, o) + if it == o then 1 else 0
  {
    assert (os + [it])[..|os|] == os;
  }

  /** The report's own count of an outcome. */
  function Counter(r: Report, o: Outcome): nat
    requires Reported(o)
  {
    match o
    case Ignoring => r.ignored
    case Orphaned => |r.orphaned|
    case OrphanedClosed => r.orphanedClosed
    case Unknown => |r.unknownCustomers|
    case Mismatched => r.mismatched
  }

  predicate Reported(o: Outcome) {
    o.Ignoring? || o.Orphaned? || o.OrphanedClosed? || o.Unknown? || o.Mismatched?
  }

  lemma CheckCounts(r: Report, db: Db, stripe: Stripe, env: Env, remote: RemoteSubscription, customer: string, turn: Turn, o: Outcome)
    requires Reported(o)
    ensures var c := Check(r, db, stripe, env, remote, customer, turn);
            && Counter(c.report, o) == Counter(r, o) + (if c.outcome == o then 1 else 0)
            && !c.outcome.NoCustomer? && c.report.checked == r.checked && c.report.repaired == r.repaired && c.report.failed == r.failed
            && (|c.report.details| - c.report.mismatched == |r.details| - r.mismatched)
  {
  }

  lemma ConclusionCounts(p: Pass, env: Env, id: string, customer: string, c: Checked, r: SyncResult, fault: Fault, o: Outcome)
    requires Reported(o)
    ensures var after := Concluded(p, env, id, customer, c, r, fault).report;
            && Counter(after, o) == Counter(c.report, o) && after.checked == c.report.checked && after.details == c.report.details
            && after.repaired <= c.report.repaired + (if c.outcome.Unknown? || c.outcome.Mismatched? then 1 else 0)
            && |c.report.failed| + (if c.outcome.NotClassified? then 1 else 0) <= |after.failed| <= |c.report.failed| + 1
  {
  }

  lemma VisitCounts(p: Pass, env: Env, remote: RemoteSubscription, turn: Turn, o: Outcome)
    requires Reported(o)
    ensures var a, b, it := p.report, Visit(p, env, remote, turn).report, OutcomeOf(p, env, remote, turn);
            && b.checked == a.checked + 1
            && Counter(b, o) == Counter(a, o) + (if it == o then 1 else 0)
            && |b.details| - b.mismatched == |a.details| - a.mismatched
            && b.repaired <= a.repaired + (if it.Unknown? || it.Mismatched? then 1 else 0)
            && |a.failed| + (if it.NotClassified? then 1 else 0) <= |b.failed| <= |a.failed| + (if it.NoCustomer? then 0 else 1)
  {
    if NamesCustomer(remote) {
      var c, customer := CheckIn(p, env, remote, turn), remote.customerId.value;
      CheckCounts(p.report.(checked := p.report.checked + 1), p.db, p.stripe, env, remote, customer, turn, o);
      ConclusionCounts(p, env, remote.id, customer, c, Repaired(p.db, c.stripe, env, customer, c.outcome, turn), turn.fault, o);
    }
  }

  /** Accounting. Each counter of the report is the number of subscriptions with that outcome. */
  lemma {:induction false} EveryCounterCounts(db: Db, stripe: Stripe, env: Env, listing: seq<RemoteSubscription>,
                                              turns: seq<Turn>, n: nat, o: Outcome)
    requires n <= |listing| == |turns| && Reported(o)
    ensures var r := VisitAll(Started(db, stripe), env, listing, turns, n).report;
            && r.checked == n && |r.details| == r.mismatched
            && Counter(r, o) == Count(Outcomes(Started(db, stripe), env, listing, turns, n), o)
  {
    hide Visit;
    if n > 0 {
      EveryCounterCounts(db, stripe, env, listing, turns, n - 1, o);
      var p := VisitAll(Started(db, stripe), env, listing, turns, n - 1);
      VisitCounts(p, env, listing[n - 1], turns[n - 1], o);
      OneMoreOutcome(Outcomes(Started(db, stripe), env, listing, turns, n - 1),
                     OutcomeOf(p, env, listing[n - 1], turns[n - 1]), o);
    }
  }

  /** Eight outcomes, and each subscription has one of them. */
  lemma {:induction false} OutcomesPartition(os: seq<Outcome>)
    ensures |os| == Count(os, NoCustomer) + Count(os, NotClassified) + Count(os, Ignoring) + Count(os, Orphaned)
                    + Count(os, OrphanedClosed) + Count(os, Unknown) + Count(os, Mismatched) + Count(os, Agreeing)
  {
    if os != [] { OutcomesPartition(os[..|os| - 1]); }
  }

  /** So a run accounts for everything it checked: the five counters of its report, what named no customer,
      what could not be classified and what agreed make up all of it. */
  lemma EveryCheckIsAccountedFor(db: Db, stripe: Stripe, env: Env, listing: seq<RemoteSubscription>, turns: seq<Turn>, n: nat)
    requires n <= |listing| == |turns|
    ensures var os := Outcomes(Started(db, stripe), env, listing, turns, n);
            var r := VisitAll(Started(db, stripe), env, listing, turns, n).report;
            r.checked == r.ignored + |r.orphaned| + r.orphanedClosed + |r.unknownCustomers| + r.mismatched
                         + Count(os, NoCustomer) + Count(os, NotClassified) + Count(os, Agreeing)
  {
    hide VisitAll, Outcomes;
    EveryCounterCounts(db, stripe, env, listing, turns, n, Ignoring);
    EveryCounterCounts(db, stripe, env, listing, turns, n, Orphaned);
    EveryCounterCounts(db, stripe, env, listing, turns, n, OrphanedClosed);
    EveryCounterCounts(db, stripe, env, listing, turns, n, Unknown);
    EveryCounterCounts(db, stripe, env, listing, turns, n, Mismatched);
    OutcomesPartition(Outcomes(Started(db, stripe), env, listing, turns, n));
  }

  /** A run repairs no more than it found to repair, and lists as failed everything it could not classify. */
  lemma {:induction false} RepairsAndFailures(db: Db, stripe: Stripe, env: Env, listing: seq<RemoteSubscription>,
                                              turns: seq<Turn>, n: nat)
    requires n <= |listing| == |turns|
    ensures var os := Outcomes(Started(db, stripe), env, listing, turns, n);
            var r := VisitAll(Started(db, stripe), env, listing, turns, n).report;
            && r.repaired <= r.mismatched + |r.unknownCustomers|
            && Count(os, NotClassified) <= |r.failed| <= n - Count(os, NoCustomer)
  {
    hide Visit;
    if n > 0 {
      RepairsAndFailures(db, stripe, env, listing, turns, n - 1);
      var p := VisitAll(Started(db, stripe), env, listing, turns, n - 1);
      var os, it := Outcomes(Started(db, stripe), env, listing, turns, n - 1), OutcomeOf(p, env, listing[n - 1], turns[n - 1]);
      VisitCounts(p, env, listing[n - 1], turns[n - 1], Unknown);
      VisitCounts(p, env, listing[n - 1], turns[n - 1], Mismatched);
      OneMoreOutcome(os, it, NotClassified);
      OneMoreOutcome(os, it, NoCustomer);
    }
  }

  // ---- dry runs ----

  lemma DryVisit(p: Pass, env: Env, remote: RemoteSubscription, turn: Turn)
    requires env.dryRun
    ensures var q := Visit(p, env, remote, turn);
            q == p.(report := q.report) && q.report.repaired == p.report.repaired
  {
  }

  /** A dry run changes nothing, in the tables or in Stripe, and each subscription is judged as the
      tables stood before the run. */
  lemma {:induction false} DryRunOnlyLooks(start: Pass, env: Env, listing: seq<RemoteSubscription>, turns: seq<Turn>, n: nat)
    requires n <= |listing| == |turns| && env.dryRun
    ensures var q := VisitAll(start, env, listing, turns, n);
            && q == start.(report := q.report) && q.report.repaired == start.report.repaired
            && (n < |listing| ==> OutcomeOf(q, env, listing[n], turns[n]) == OutcomeOf(start, env, listing[n], turns[n]))
  {
    if n > 0 {
      DryRunOnlyLooks(start, env, listing, turns, n - 1);
      DryVisit(VisitAll(start, env, listing, turns, n - 1), env, listing[n - 1], turns[n - 1]);
    }
  }

  /** A run that reports no drift and no unknown customer wrote nothing to the tables. */
  lemma {:induction false} NothingToRepairNothingWritten(start: Pass, env: Env, listing: seq<RemoteSubscription>,
                                                         turns: seq<Turn>, n: nat)
    requires n <= |listing| == |turns|
    ensures var q := VisitAll(start, env, listing, turns, n);
            && start.report.mismatched <= q.report.mismatched
            && |start.report.unknownCustomers| <= |q.report.unknownCustomers|
            && (q.report.mismatched == start.report.mismatched && |q.report.unknownCustomers| == |start.report.unknownCustomers|
                ==> q.db == start.db && q.drained == start.drained && q.report.repaired == start.report.repaired)
  {
    hide Visit;
    if n > 0 {
      NothingToRepairNothingWritten(start, env, listing, turns, n - 1);
      var p := VisitAll(start, env, listing, turns, n - 1);
      VisitCounts(p, env, listing[n - 1], turns[n - 1], Unknown);
      VisitCounts(p, env, listing[n - 1], turns[n - 1], Mismatched);
      VisitWithoutRepair(p, env, listing[n - 1], turns[n - 1]);
    }
  }

  lemma VisitWithoutRepair(p: Pass, env: Env, remote: RemoteSubscription, turn: Turn)
    ensures var q, o := Visit(p, env, remote, turn), OutcomeOf(p, env, remote, turn);
            !o.Unknown? && !o.Mismatched? ==>
              q.db == p.db && q.drained == p.drained && q.report.repaired == p.report.repaired
  {
  }
}
