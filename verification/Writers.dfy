/** Every writer of the subscriptions table together: what each of them keeps, over whole runs. */
module Writers {
  import opened Models
  import opened Subscriptions
  import opened Admin
  import EntitlementReads

  /** One transaction by any writer. A sync of a customer with a row reads it under a lock. The others
      do not, so they carry what they read: `seen` is the row as it was then, and what it says when the
      write lands is unconstrained. `LateFirstContact` is a sync that found no row and asked Stripe first,
      and makes the row or takes it under its lock; `OvertakenContact` is one that read its user's row
      without a lock. */
  datatype Write =
    | SyncOf(customer: string, stripe: Stripe, event: Option<string>, reason: string)
    | LateFirstContact(customer: string, userId: string, answer: Option<RemoteSubscription>, reason: string)
    | OvertakenContact(seen: Row, customer: string, answer: Option<RemoteSubscription>, reason: string)
    | DisputeOf(seen: Row, event: Option<string>)
    | SignUp(userId: string)
    | CheckoutOf(userId: string, stripe: Stripe, priceOk: bool, created: string)
    | LateCheckoutOf(userId: string, created: string)
    | Extend(seen: Row, days: int)
    | Comp(userId: string, tier: Tier, expiresAt: Option<Instant>)
    | Revoke(id: nat)
    | LateRevokeOf(id: nat)
    | AppendAudit(entries: seq<Audit>)

  /** The tables after the transaction; one that is refused or raises changes nothing. */
  function Apply(db: Db, catalog: Catalog, w: Write, now: Instant): Db {
    match w
    case SyncOf(customer, stripe, event, reason) =>
      var r := Sync(db, catalog, stripe, customer, event, reason, now);
      if r.Synced? then r.db else db
    case LateFirstContact(customer, userId, answer, reason) =>
      var (rows, i) := Claimed(db.rows, customer, userId);
      var r := WriteBack(db, rows, i, Project(catalog, answer), None, reason, now);
      if r.Synced? then r.db else db
    case OvertakenContact(seen, customer, answer, reason) =>
      var r := Contact(db, seen, customer, Project(catalog, answer), None, reason, now);
      if r.Synced? then r.db else db
    case DisputeOf(seen, event) => DisputedAs(db, seen, event, now)
    case SignUp(userId) => db.(rows := GetOrCreate(db.rows, userId).0)
    case CheckoutOf(userId, stripe, priceOk, created) =>
      var r := StartCheckout(db, stripe, userId, priceOk, created);
      if r.Started? then r.db else db
    case LateCheckoutOf(userId, created) => LateCheckout(db, userId, created)
    case Extend(seen, days) => ExtendGrace(db, seen, days, now).GetOr(db)
    case Comp(userId, tier, expiresAt) => CreateGrant(db, userId, tier, expiresAt, now).GetOr(db)
    case Revoke(id) => RevokeGrant(db, id, now).GetOr(db)
    case LateRevokeOf(id) => LateRevoke(db, id, now)
    case AppendAudit(entries) => db.(audits := db.audits + entries)
  }

  /** Signing up gives a user a row, on free unless they had one; a checkout that starts leaves one that carries
      the customer it is for. */
  lemma EverybodyGetsARow(db: Db, catalog: Catalog, stripe: Stripe, userId: string, priceOk: bool, created: string, now: Instant)
    ensures var later := Apply(db, catalog, SignUp(userId), now);
            && db.rows <= later.rows && later == db.(rows := later.rows)
            && (exists k :: 0 <= k < |later.rows| && later.rows[k].userId == userId)
            && forall k :: |db.rows| <= k < |later.rows| ==> later.rows[k] == Row(userId, None, NO_SUBSCRIPTION, None, None)
    ensures var r := StartCheckout(db, stripe, userId, priceOk, created);
            r.Started? ==>
              exists k :: 0 <= k < |r.db.rows| && r.db.rows[k].userId == userId && r.db.rows[k].customerId == Some(r.customer)
                          && Apply(db, catalog, CheckoutOf(userId, stripe, priceOk, created), now).rows == r.db.rows
  {
    var later := Apply(db, catalog, SignUp(userId), now);
    var (rows, i) := GetOrCreate(db.rows, userId);
    assert later.rows[i].userId == userId;
    var r := StartCheckout(db, stripe, userId, priceOk, created);
    if r.Started? {
      assert r.db.rows[i].userId == userId && r.db.rows[i].customerId == Some(r.customer);
    }
  }

  lemma GetOrCreateKeepsTable(rows: seq<Row>, userId: string)
    requires UniqueRows(rows)
    ensures UniqueRows(GetOrCreate(rows, userId).0)
    ensures TableOk(rows) ==> TableOk(GetOrCreate(rows, userId).0)
  {
    var (after, k) := GetOrCreate(rows, userId);
    forall i, j | 0 <= i < j < |after| ensures !Conflict(after[i], after[j]) {
      if j < |rows| { assert !Conflict(rows[i], rows[j]); }
    }
  }

  /** Rewriting one row without touching a unique column. */
  lemma UpdateKeepsUnique(rows: seq<Row>, k: nat, row: Row)
    requires UniqueRows(rows) && k < |rows|
    requires row.userId == rows[k].userId && row.customerId == rows[k].customerId
    requires row.mirror.subscriptionId == rows[k].mirror.subscriptionId
    ensures UniqueRows(rows[k := row])
  {
    var after := rows[k := row];
    forall i, j | 0 <= i < j < |after| ensures !Conflict(after[i], after[j]) {
      assert !Conflict(rows[i], rows[j]);
    }
  }

  /** The writers that touch one row, other than by a sync. */
  lemma RowWriteKeepsUnique(db: Db, catalog: Catalog, w: Write, now: Instant)
    requires UniqueRows(db.rows) && (w.DisputeOf? || w.Extend? || w.CheckoutOf? || w.LateCheckoutOf?)
    ensures UniqueRows(Apply(db, catalog, w, now).rows)
  {
    match w
    case DisputeOf(seen, event) =>
      var found := Find(db.rows, ByUser(seen.userId));
      if found.Some? {
        UpdateKeepsUnique(db.rows, found.value, db.rows[found.value].(disputedAt := Some(now)));
      }
    case Extend(seen, days) =>
      var found := Find(db.rows, ByUser(seen.userId));
      if found.Some? && seen.pastDueSince.Some? {
        UpdateKeepsUnique(db.rows, found.value,
                          db.rows[found.value].(pastDueSince := Some(seen.pastDueSince.value + days * DAY)));
      }
    case CheckoutOf(userId, _, _, _) => GetOrCreateKeepsTable(db.rows, userId);
    case LateCheckoutOf(_, _) =>
  }

  /** No write, whatever it read, breaks a unique column. */
  lemma EveryWriteKeepsUnique(db: Db, catalog: Catalog, w: Write, now: Instant)
    requires UniqueRows(db.rows)
    ensures UniqueRows(Apply(db, catalog, w, now).rows)
  {
    match w
    case SyncOf(customer, stripe, event, reason) =>
      SyncKeepsTable(db, catalog, stripe, customer, event, reason, now);
    case SignUp(userId) => GetOrCreateKeepsTable(db.rows, userId);
    case DisputeOf(_, _) => RowWriteKeepsUnique(db, catalog, w, now);
    case Extend(_, _) => RowWriteKeepsUnique(db, catalog, w, now);
    case CheckoutOf(_, _, _, _) => RowWriteKeepsUnique(db, catalog, w, now);
    case LateCheckoutOf(_, _) => RowWriteKeepsUnique(db, catalog, w, now);
    case _ =>
  }

  /** A first contact lands as if it had only just read its row: whatever it leaves alone still says what
      it read. */
  predicate LandsWhole(db: Db, catalog: Catalog, w: Write, now: Instant) {
    w.OvertakenContact? ==>
      match Find(db.rows, ByUser(w.seen.userId))
      case None => true
      case Some(i) =>
        var after, current := Contacted(w.seen, w.customer, Project(catalog, w.answer), now), db.rows[i];
        && LeftAloneAsRead(w.seen.mirror, after.mirror, current.mirror)
        && (after.pastDueSince == w.seen.pastDueSince ==> current.pastDueSince == w.seen.pastDueSince)
        && (after.customerId == w.seen.customerId ==> current.customerId == w.seen.customerId)
  }

  /** And exactly then it leaves on the row what it decided, and nothing of what overtook it. */
  lemma ContactLandsWholeIff(db: Db, catalog: Catalog, w: Write, now: Instant, i: nat)
    requires UniqueRows(db.rows) && w.OvertakenContact? && i < |db.rows| && db.rows[i].userId == w.seen.userId
    requires Contact(db, w.seen, w.customer, Project(catalog, w.answer), None, w.reason, now).Synced?
    ensures var row := Apply(db, catalog, w, now).rows[i];
            var after := Contacted(w.seen, w.customer, Project(catalog, w.answer), now);
            (row.mirror, row.pastDueSince, row.customerId) == (after.mirror, after.pastDueSince, after.customerId)
            <==> LandsWhole(db, catalog, w, now)
  {
    FindIs(db.rows, ByUser(w.seen.userId), i);
    ContactMirrorsIff(w.seen.mirror, Project(catalog, w.answer), db.rows[i].mirror);
  }

  lemma ContactKeepsTable(db: Db, catalog: Catalog, w: Write, now: Instant)
    requires TableOk(db.rows) && w.OvertakenContact? && LandsWhole(db, catalog, w, now)
    ensures TableOk(Apply(db, catalog, w, now).rows)
  {
    var r := Contact(db, w.seen, w.customer, Project(catalog, w.answer), None, w.reason, now);
    if r.Synced? {
      var i := Find(db.rows, ByUser(w.seen.userId)).value;
      ContactLandsWholeIff(db, catalog, w, now, i);
      WrittenKeepsRow(catalog, w.seen.(customerId := Some(w.customer)), w.answer, now);
      assert RowOk(r.db.rows[i]);
    }
  }

  lemma EveryWriteKeepsTable(db: Db, catalog: Catalog, w: Write, now: Instant)
    requires TableOk(db.rows) && LandsWhole(db, catalog, w, now)
    ensures TableOk(Apply(db, catalog, w, now).rows)
  {
    EveryWriteKeepsUnique(db, catalog, w, now);
    match w
    case SyncOf(customer, stripe, event, reason) =>
      SyncKeepsTable(db, catalog, stripe, customer, event, reason, now);
    case LateFirstContact(customer, userId, answer, reason) =>
      ClaimedKeepsTable(db.rows, customer, userId);
      var (rows, i) := Claimed(db.rows, customer, userId);
      WrittenKeepsRow(catalog, rows[i], answer, now);
    case OvertakenContact(_, _, _, _) => ContactKeepsTable(db, catalog, w, now);
    case SignUp(userId) => GetOrCreateKeepsTable(db.rows, userId);
    case CheckoutOf(userId, _, _, _) => GetOrCreateKeepsTable(db.rows, userId);
    case _ =>
  }

  // ---- extensions and first contacts take no lock ----

  /** An extension lands on a row that is past_due, or is refused. A first contact that read no window
      does not land, with a change of status to something else, on a row that has got one, nor, reading
      past_due, on a row that is past_due no more. */
  predicate LandsWithWindow(db: Db, catalog: Catalog, w: Write, now: Instant) {
    match w
    case Extend(seen, _) =>
      (match Find(db.rows, ByUser(seen.userId))
       case None => true
       case Some(i) => seen.pastDueSince.Some? ==> db.rows[i].mirror.status.PastDue?)
    case OvertakenContact(seen, customer, answer, reason) =>
      Contact(db, seen, customer, Project(catalog, answer), None, reason, now).Synced? && seen.pastDueSince.None? ==>
        var current, status := db.rows[Find(db.rows, ByUser(seen.userId)).value], Project(catalog, answer).status;
        && !(!status.PastDue? && status != seen.mirror.status && current.pastDueSince.Some?)
        && !(status.PastDue? && seen.mirror.status.PastDue? && !current.mirror.status.PastDue?)
    case _ => true
  }

  /** Every write keeps "a window means past_due", exactly under that condition. */
  lemma WriteKeepsWindowsIff(db: Db, catalog: Catalog, w: Write, now: Instant)
    requires UniqueRows(db.rows) && WindowsOk(db.rows)
    ensures WindowsOk(Apply(db, catalog, w, now).rows) <==> LandsWithWindow(db, catalog, w, now)
  {
    match w
    case SyncOf(customer, stripe, event, reason) =>
      if Sync(db, catalog, stripe, customer, event, reason, now).Synced? {
        var rows, i := SyncWritesBack(db, catalog, stripe, customer, event, reason, now);
        WriteBackKeepsWindows(db, rows, i, catalog, stripe.Fetch(customer), event, reason, now);
      }
    case LateFirstContact(customer, userId, answer, reason) =>
      ClaimedIsInHand(db.rows, customer, userId);
      var (rows, i) := Claimed(db.rows, customer, userId);
      WriteBackKeepsWindows(db, rows, i, catalog, answer, None, reason, now);
    case OvertakenContact(_, _, _, _) => ContactKeepsWindowsIff(db, catalog, w, now);
    case Extend(seen, days) => ExtensionKeepsWindowsIff(db, catalog, seen, days, now);
    case _ => OtherWriteKeepsWindows(db, catalog, w, now);
  }

  lemma ContactKeepsWindowsIff(db: Db, catalog: Catalog, w: Write, now: Instant)
    requires WindowsOk(db.rows) && w.OvertakenContact?
    ensures WindowsOk(Apply(db, catalog, w, now).rows) <==> LandsWithWindow(db, catalog, w, now)
  {
    var r := Contact(db, w.seen, w.customer, Project(catalog, w.answer), None, w.reason, now);
    if r.Synced? {
      var i := Find(db.rows, ByUser(w.seen.userId)).value;
      assert WindowOk(db.rows[i]);
      assert WindowOk(r.db.rows[i]) <==> LandsWithWindow(db, catalog, w, now);
    }
  }

  lemma WriteBackKeepsWindows(db: Db, rows: seq<Row>, i: nat, catalog: Catalog, answer: Option<RemoteSubscription>,
                              event: Option<string>, reason: string, now: Instant)
    requires WindowsOk(db.rows) && InHand(db.rows, rows, i) && rows[i].customerId.Some?
    ensures var r := WriteBack(db, rows, i, Project(catalog, answer), event, reason, now);
            r.Synced? ==> WindowsOk(r.db.rows)
  {
    WrittenKeepsRow(catalog, rows[i], answer, now);
  }

  lemma ExtensionKeepsWindowsIff(db: Db, catalog: Catalog, seen: Row, days: int, now: Instant)
    requires WindowsOk(db.rows)
    ensures WindowsOk(ExtendGrace(db, seen, days, now).GetOr(db).rows)
            <==> LandsWithWindow(db, catalog, Extend(seen, days), now)
  {
    var found := Find(db.rows, ByUser(seen.userId));
    if found.Some? && seen.pastDueSince.Some? {
      var after := ExtendGrace(db, seen, days, now).value.rows;
      assert WindowOk(after[found.value]) <==> db.rows[found.value].mirror.status.PastDue?;
    }
  }

  lemma OtherWriteKeepsWindows(db: Db, catalog: Catalog, w: Write, now: Instant)
    requires WindowsOk(db.rows) && !w.SyncOf? && !w.LateFirstContact? && !w.OvertakenContact? && !w.Extend?
    ensures WindowsOk(Apply(db, catalog, w, now).rows)
  {
  }

  /** The tables after a run of transactions, each at its own instant. */
  function Run(db: Db, catalog: Catalog, ws: seq<(Write, Instant)>): Db {
    if ws == [] then db
    else Apply(Run(db, catalog, ws[..|ws| - 1]), catalog, ws[|ws| - 1].0, ws[|ws| - 1].1)
  }

  /** The tables after the first `n` transactions. */
  function After(db: Db, catalog: Catalog, ws: seq<(Write, Instant)>, n: nat): Db
    requires n <= |ws|
  {
    Run(db, catalog, ws[..n])
  }

  lemma OneMoreWrite(db: Db, catalog: Catalog, ws: seq<(Write, Instant)>, n: nat)
    requires n < |ws|
    ensures After(db, catalog, ws, n + 1) == Apply(After(db, catalog, ws, n), catalog, ws[n].0, ws[n].1)
  {
    hide Apply;
    assert ws[..n + 1][..n] == ws[..n];
  }

  ghost predicate AllLandWhole(db: Db, catalog: Catalog, ws: seq<(Write, Instant)>, n: nat)
    requires n <= |ws|
  {
    forall k :: 0 <= k < n ==> LandsWhole(After(db, catalog, ws, k), catalog, ws[k].0, ws[k].1)
  }

  lemma {:induction false} RowsStayUnique(db: Db, catalog: Catalog, ws: seq<(Write, Instant)>)
    requires db.rows == []
    ensures UniqueRows(Run(db, catalog, ws).rows)
  {
    hide Apply;
    if ws != [] {
      RowsStayUnique(db, catalog, ws[..|ws| - 1]);
      EveryWriteKeepsUnique(Run(db, catalog, ws[..|ws| - 1]), catalog, ws[|ws| - 1].0, ws[|ws| - 1].1);
    }
  }

  /** In every reachable state, whatever was read when, user, customer and subscription ids are unique
      across rows. And as long as no first contact was overtaken in what it left alone: a past_due row has
      a start of its window, a paid tier has a paying status, a row on free holds nothing of Stripe's, and
      a row on a subscription carries its customer. */
  lemma {:induction false} TableAlwaysOk(db: Db, catalog: Catalog, ws: seq<(Write, Instant)>, n: nat)
    requires db.rows == [] && n <= |ws|
    ensures UniqueRows(After(db, catalog, ws, n).rows)
    ensures AllLandWhole(db, catalog, ws, n) ==> TableOk(After(db, catalog, ws, n).rows)
  {
    hide Apply, LandsWhole, Run;
    RowsStayUnique(db, catalog, ws[..n]);
    if n == 0 {
      NothingYet(db, catalog, ws);
    } else {
      TableAlwaysOk(db, catalog, ws, n - 1);
      OneMoreWrite(db, catalog, ws, n - 1);
      if AllLandWhole(db, catalog, ws, n) {
        EveryWriteKeepsTable(After(db, catalog, ws, n - 1), catalog, ws[n - 1].0, ws[n - 1].1);
      }
    }
  }

  ghost predicate WindowsOkSoFar(db: Db, catalog: Catalog, ws: seq<(Write, Instant)>, n: nat)
    requires n <= |ws|
  {
    forall k :: 0 <= k <= n ==> WindowsOk(After(db, catalog, ws, k).rows)
  }

  ghost predicate AllLandWithWindow(db: Db, catalog: Catalog, ws: seq<(Write, Instant)>, n: nat)
    requires n <= |ws|
  {
    forall k :: 0 <= k < n ==> LandsWithWindow(After(db, catalog, ws, k), catalog, ws[k].0, ws[k].1)
  }

  /** And a window's start means the row is past_due, in every state along a run, if and only if every
      extension and every first contact of the run landed on a row that its window suits. */
  lemma {:induction false} WindowsAlwaysOkIff(db: Db, catalog: Catalog, ws: seq<(Write, Instant)>, n: nat)
    requires db.rows == [] && n <= |ws|
    ensures WindowsOkSoFar(db, catalog, ws, n) <==> AllLandWithWindow(db, catalog, ws, n)
  {
    hide Apply, LandsWithWindow, WindowsOk, Run;
    if n == 0 {
      NothingYet(db, catalog, ws);
    } else {
      WindowsAlwaysOkIff(db, catalog, ws, n - 1);
      OneMoreWrite(db, catalog, ws, n - 1);
      RowsStayUnique(db, catalog, ws[..n - 1]);
      var before := After(db, catalog, ws, n - 1);
      if WindowsOk(before.rows) {
        WriteKeepsWindowsIff(before, catalog, ws[n - 1].0, ws[n - 1].1);
      }
    }
  }

  lemma NothingYet(db: Db, catalog: Catalog, ws: seq<(Write, Instant)>)
    requires db.rows == []
    ensures WindowsOk(After(db, catalog, ws, 0).rows) && TableOk(After(db, catalog, ws, 0).rows)
  {
    assert ws[..0] == [];
  }

  /** The trace. A row is past_due when the extension reads it; a sync sees the payment recover; the
      extension lands, and the row has a window that means nothing. */
  lemma AnOvertakenExtensionLeavesAWindow(db: Db, catalog: Catalog, i: nat, customer: string, stripe: Stripe,
                                          reason: string, days: int, now: Instant, later: Instant)
    requires TableOk(db.rows) && WindowsOk(db.rows) && i < |db.rows|
    requires db.rows[i].customerId == Some(customer) && db.rows[i].mirror.status.PastDue?
    requires !Project(catalog, stripe.Fetch(customer)).status.PastDue?
    requires Sync(db, catalog, stripe, customer, None, reason, now).Synced?
    ensures var mid := Apply(db, catalog, SyncOf(customer, stripe, None, reason), now);
            && WindowsOk(mid.rows)
            && !WindowsOk(Apply(mid, catalog, Extend(db.rows[i], days), later).rows)
  {
    var w := SyncOf(customer, stripe, None, reason);
    var mid := Apply(db, catalog, w, now);
    WriteKeepsWindowsIff(db, catalog, w, now);
    SyncKeepsTable(db, catalog, stripe, customer, None, reason, now);
    FindIs(db.rows, ByCustomer(customer), i);
    FindIs(mid.rows, ByUser(db.rows[i].userId), i);
    ExtensionKeepsWindowsIff(mid, catalog, db.rows[i], days, later);
  }

  /** What it costs when a sync saw the payment recover in between: the next dunning cycle, however
      much later, is not stamped afresh, so paid access can end the moment it begins. */
  lemma LateExtendShortensTheNextWindow(settings: EntitlementReads.Settings, row: Row, since: Instant,
                                        state: MirroredState, now: Instant)
    requires RowOk(row) && WindowOk(row) && !row.mirror.status.PastDue? && state.status.PastDue? && settings.grace > 0
    ensures var next := Written(row.(pastDueSince := Some(since)), state, now);
            next.pastDueSince == Some(since)
            && (EntitlementReads.GraceExpired(settings, next, now) <==> since + settings.grace <= now)
    ensures !EntitlementReads.GraceExpired(settings, Written(row, state, now), now)
  {
  }

  /** A first contact can start a window again. It read the row before it was past_due; a locked sync saw it
      go past_due and stamped the window; the contact was told past_due too, and stamps it anew. */
  lemma AnOvertakenContactRestartsTheWindow(db: Db, catalog: Catalog, i: nat, customer: string, stripe: Stripe,
                                            answer: Option<RemoteSubscription>, reason: string, now: Instant, later: Instant)
    requires UniqueRows(db.rows) && i < |db.rows|
    requires db.rows[i].customerId == Some(customer) && db.rows[i].pastDueSince.None?
    requires Project(catalog, stripe.Fetch(customer)).status.PastDue? && Project(catalog, answer).status.PastDue?
    requires Sync(db, catalog, stripe, customer, None, reason, now).Synced?
    requires var mid := Apply(db, catalog, SyncOf(customer, stripe, None, reason), now);
             Contact(mid, db.rows[i], customer, Project(catalog, answer), None, reason, later).Synced?
    ensures var mid := Apply(db, catalog, SyncOf(customer, stripe, None, reason), now);
            var after := Apply(mid, catalog, OvertakenContact(db.rows[i], customer, answer, reason), later);
            && i < |mid.rows| && mid.rows[i].pastDueSince == Some(now)
            && i < |after.rows| && after.rows[i].pastDueSince == Some(later)
  {
    var mid := Apply(db, catalog, SyncOf(customer, stripe, None, reason), now);
    SyncKeepsTable(db, catalog, stripe, customer, None, reason, now);
    FindIs(db.rows, ByCustomer(customer), i);
    FindIs(mid.rows, ByUser(db.rows[i].userId), i);
  }

  // ---- the grace window never restarts ----

  /** What one write does to a row's status and window: a sync observed the row's customer, an extension
      moved the window it read, one that was overtaken wrote a window over what was there, or a first
      contact landed what it decided on a row it had read before. */
  datatype Touch =
    | Observed(state: MirroredState, now: Instant)
    | Extended(days: int)
    | Overwritten(since: Instant)
    | Merged(seen: Row, state: MirroredState, now: Instant)

  /** One row through a history. */
  function Touched(row: Row, history: seq<Touch>): Row {
    if history == [] then row else TouchedBy(Touched(row, history[..|history| - 1]), history[|history| - 1])
  }

  function TouchedBy(row: Row, touch: Touch): Row {
    match touch
    case Observed(state, now) => Written(row, state, now)
    case Extended(days) =>
      if row.pastDueSince.None? then row else row.(pastDueSince := Some(row.pastDueSince.value + days * DAY))
    case Overwritten(since) => row.(pastDueSince := Some(since))
    case Merged(seen, state, now) =>
      row.(mirror := KeptMirror(seen.mirror, state, row.mirror),
           pastDueSince := Kept(seen.pastDueSince, Written(seen, state, now).pastDueSince, row.pastDueSince))
  }

  /** Days added by the extensions from position `k` on. */
  function DaysFrom(history: seq<Touch>, k: nat): int
    requires k <= |history|
  {
    if k == |history| then 0
    else
      DaysFrom(history[..|history| - 1], k)
      + if history[|history| - 1].Extended? then history[|history| - 1].days else 0
  }

  /** The window in force was started at `k`, at this instant: by a sync that found the row past_due with
      no window, by a first contact that read none and was told past_due, or by an overtaken extension;
      and no write since took it off or started another. */
  ghost predicate StartedAt(row: Row, history: seq<Touch>, k: nat, since: Instant) {
    && k < |history|
    && (match history[k]
        case Observed(state, now) =>
          state.status.PastDue? && Touched(row, history[..k]).pastDueSince.None? && since == now
        case Extended(_) => false
        case Overwritten(at) => since == at
        case Merged(seen, state, now) => state.status.PastDue? && seen.pastDueSince.None? && since == now)
    && forall j :: k < j < |history| ==> GoesOn(history[j])
  }

  predicate GoesOn(touch: Touch) {
    || touch.Extended?
    || (touch.Observed? && touch.state.status.PastDue?)
    || (touch.Merged? && (touch.state.status.PastDue? <==> touch.seen.pastDueSince.Some?))
  }

  /** The last status a sync saw, counting from `first`. */
  function LastStatus(first: Status, history: seq<Touch>): Status {
    if history == [] then first
    else
      var last, before := history[|history| - 1], LastStatus(first, history[..|history| - 1]);
      if last.Observed? then last.state.status
      else if last.Merged? then Kept(last.seen.mirror.status, last.state.status, before)
      else before
  }

  /** Through any history a row's status is the last one observed. Past_due has a window as long as no
      first contact was overtaken, and a window means past_due as long as no extension was either. */
  lemma {:induction false} StatusFollows(row: Row, history: seq<Touch>)
    requires row.mirror.status.PastDue? <==> row.pastDueSince.Some?
    ensures var r := Touched(row, history);
            && r.mirror.status == LastStatus(row.mirror.status, history)
            && ((forall j :: 0 <= j < |history| ==> !history[j].Merged?) ==> (r.mirror.status.PastDue? ==> r.pastDueSince.Some?))
            && ((forall j :: 0 <= j < |history| ==> !history[j].Merged? && !history[j].Overwritten?) ==>
                  (r.mirror.status.PastDue? <==> r.pastDueSince.Some?))
  {
    if history != [] {
      var init := history[..|history| - 1];
      StatusFollows(row, init);
      assert forall j :: 0 <= j < |init| ==> init[j] == history[j];
    }
  }

  /** The window counts from where it started plus the extensions since, whatever retries failed in
      between. */
  lemma {:induction false} WindowNeverRestarts(row: Row, history: seq<Touch>, k: nat, since: Instant)
    requires StartedAt(row, history, k, since)
    ensures Touched(row, history).pastDueSince == Some(since + DaysFrom(history, k + 1) * DAY)
    ensures history[k].Observed? && (forall j :: k < j < |history| ==> !history[j].Merged?) ==>
              Touched(row, history).mirror.status.PastDue?
  {
    var init := history[..|history| - 1];
    if k == |history| - 1 {
      assert init == history[..k];
    } else {
      assert init[..k] == history[..k];
      assert forall j :: 0 <= j < |init| ==> init[j] == history[j];
      WindowNeverRestarts(row, init, k, since);
      assert GoesOn(history[|history| - 1]);
    }
  }

  /** And every window was started somewhere: where a row without one has got one, which write of its
      history started it is found. */
  lemma {:induction false} EveryWindowStarted(row: Row, history: seq<Touch>) returns (k: nat, since: Instant)
    requires row.pastDueSince.None? && Touched(row, history).pastDueSince.Some?
    ensures StartedAt(row, history, k, since)
  {
    var init, last := history[..|history| - 1], history[|history| - 1];
    if last.Overwritten? {
      k, since := |init|, last.since;
    } else if last.Merged? && last.state.status.PastDue? && last.seen.pastDueSince.None? {
      k, since := |init|, last.now;
    } else if Touched(row, init).pastDueSince.None? {
      k, since := |init|, last.now;
    } else {
      k, since := EveryWindowStarted(row, init);
      assert init[..k] == history[..k];
      assert forall j :: 0 <= j < |init| ==> init[j] == history[j];
    }
  }

  // ---- and so for every user's row, over every run of the writers ----

  /** A user's row, or the row on free they would get. */
  function RowFor(rows: seq<Row>, userId: string): Row {
    match Find(rows, ByUser(userId))
    case Some(i) => rows[i]
    case None => FreshRow(userId)
  }

  /** What a write does to this user's row. */
  function TouchOf(db: Db, catalog: Catalog, w: Write, now: Instant, userId: string): Option<Touch> {
    match w
    case SyncOf(customer, stripe, event, reason) =>
      var r := Sync(db, catalog, stripe, customer, event, reason, now);
      if r.Synced? && r.index < |r.db.rows| && r.db.rows[r.index].userId == userId
      then Some(Observed(Project(catalog, stripe.Fetch(customer)), now)) else None
    case LateFirstContact(customer, user, answer, reason) =>
      var (rows, i) := Claimed(db.rows, customer, user);
      if rows[i].userId == userId && WriteBack(db, rows, i, Project(catalog, answer), None, reason, now).Synced?
      then Some(Observed(Project(catalog, answer), now)) else None
    case OvertakenContact(seen, customer, answer, reason) =>
      var state := Project(catalog, answer);
      if seen.userId == userId && Contact(db, seen, customer, state, None, reason, now).Synced?
      then Some(Merged(seen, state, now)) else None
    case Extend(seen, days) =>
      if seen.userId != userId || ExtendGrace(db, seen, days, now).None? then None
      else if RowFor(db.rows, userId).pastDueSince == seen.pastDueSince then Some(Extended(days))
      else Some(Overwritten(seen.pastDueSince.value + days * DAY))
    case _ => None
  }

  function Taken(row: Row, touch: Option<Touch>): Row {
    if touch.None? then row else TouchedBy(row, touch.value)
  }

  function History(db: Db, catalog: Catalog, ws: seq<(Write, Instant)>, userId: string): seq<Touch> {
    if ws == [] then []
    else
      var init, last := ws[..|ws| - 1], ws[|ws| - 1];
      var touch := TouchOf(Run(db, catalog, init), catalog, last.0, last.1, userId);
      History(db, catalog, init, userId) + if touch.Some? then [touch.value] else []
  }

  /** Status and window, the two the history decides. */
  predicate SameWindow(a: Row, b: Row) {
    a.mirror == b.mirror && a.pastDueSince == b.pastDueSince
  }

  lemma WriteBackTouches(db: Db, rows: seq<Row>, i: nat, state: MirroredState, event: Option<string>,
                         reason: string, now: Instant, userId: string)
    requires UniqueRows(db.rows) && InHand(db.rows, rows, i)
    ensures var r := WriteBack(db, rows, i, state, event, reason, now);
            r.Synced? ==>
              SameWindow(RowFor(r.db.rows, userId),
                         if rows[i].userId == userId then Written(RowFor(db.rows, userId), state, now) else RowFor(db.rows, userId))
  {
    var r := WriteBack(db, rows, i, state, event, reason, now);
    if r.Synced? {
      EntitlementReads.FindUserAfterWrite(db.rows, rows, i, Written(rows[i], state, now), userId);
    }
  }

  lemma ContactTouches(db: Db, seen: Row, customer: string, state: MirroredState, reason: string, now: Instant, userId: string)
    requires UniqueRows(db.rows)
    ensures var r := Contact(db, seen, customer, state, None, reason, now);
            r.Synced? ==>
              SameWindow(RowFor(r.db.rows, userId),
                         if seen.userId == userId then TouchedBy(RowFor(db.rows, userId), Merged(seen, state, now))
                         else RowFor(db.rows, userId))
  {
    var r, at := Contact(db, seen, customer, state, None, reason, now), Find(db.rows, ByUser(seen.userId));
    if r.Synced? {
      var after := r.db.rows[at.value];
      var rows := db.rows[at.value := db.rows[at.value].(customerId := after.customerId)];
      assert rows[at.value := after] == r.db.rows;
      EntitlementReads.FindUserAfterWrite(db.rows, rows, at.value, after, userId);
    }
  }

  lemma ExtensionTouches(db: Db, seen: Row, days: int, now: Instant, userId: string)
    requires UniqueRows(db.rows)
    ensures var r := ExtendGrace(db, seen, days, now);
            r.Some? ==>
              && RowFor(r.value.rows, userId).mirror == RowFor(db.rows, userId).mirror
              && RowFor(r.value.rows, userId).pastDueSince
                 == if seen.userId == userId then Some(seen.pastDueSince.value + days * DAY) else RowFor(db.rows, userId).pastDueSince
  {
    var r, at := ExtendGrace(db, seen, days, now), Find(db.rows, ByUser(seen.userId));
    if r.Some? {
      var after := r.value.rows[at.value];
      UpdateKeepsUnique(db.rows, at.value, after);
      EntitlementReads.FindUserAfterWrite(db.rows, db.rows, at.value, after, userId);
    }
  }

  /** Every row stays whose it is and keeps status and window, and a new one is on free. */
  ghost predicate WindowsStay(before: seq<Row>, later: seq<Row>) {
    && |before| <= |later|
    && (forall k :: 0 <= k < |before| ==> later[k].userId == before[k].userId && SameWindow(later[k], before[k]))
    && (forall k :: |before| <= k < |later| ==> SameWindow(later[k], FreshRow(later[k].userId)))
  }

  lemma StayedForEveryUser(before: seq<Row>, later: seq<Row>, userId: string)
    requires UniqueRows(later) && WindowsStay(before, later)
    ensures SameWindow(RowFor(later, userId), RowFor(before, userId))
  {
    var found := Find(before, ByUser(userId));
    if found.Some? {
      FindIs(later, ByUser(userId), found.value);
    } else {
      assert forall k :: 0 <= k < |before| ==> !Matches(before[k], ByUser(userId)) && later[k].userId == before[k].userId;
    }
  }

  lemma OtherWriteTouches(db: Db, catalog: Catalog, w: Write, now: Instant)
    requires !w.SyncOf? && !w.LateFirstContact? && !w.OvertakenContact? && !w.Extend?
    ensures WindowsStay(db.rows, Apply(db, catalog, w, now).rows)
  {
    match w
    case CheckoutOf(userId, stripe, priceOk, created) => CheckoutTouches(db, stripe, userId, priceOk, created);
    case _ =>
  }

  lemma CheckoutTouches(db: Db, stripe: Stripe, userId: string, priceOk: bool, created: string)
    ensures var r := StartCheckout(db, stripe, userId, priceOk, created);
            r.Started? ==> WindowsStay(db.rows, r.db.rows)
  {
  }

  lemma SyncTouches(db: Db, catalog: Catalog, w: Write, now: Instant, userId: string)
    requires UniqueRows(db.rows) && (w.SyncOf? || w.LateFirstContact?)
    ensures SameWindow(RowFor(Apply(db, catalog, w, now).rows, userId),
                       Taken(RowFor(db.rows, userId), TouchOf(db, catalog, w, now, userId)))
  {
    match w
    case SyncOf(customer, stripe, event, reason) =>
      if Sync(db, catalog, stripe, customer, event, reason, now).Synced? {
        var rows, i := SyncWritesBack(db, catalog, stripe, customer, event, reason, now);
        WriteBackTouches(db, rows, i, Project(catalog, stripe.Fetch(customer)), event, reason, now, userId);
      }
    case LateFirstContact(customer, user, answer, reason) =>
      ClaimedIsInHand(db.rows, customer, user);
      var (rows, i) := Claimed(db.rows, customer, user);
      WriteBackTouches(db, rows, i, Project(catalog, answer), None, reason, now, userId);
  }

  lemma WriteTouches(db: Db, catalog: Catalog, w: Write, now: Instant, userId: string)
    requires UniqueRows(db.rows)
    ensures SameWindow(RowFor(Apply(db, catalog, w, now).rows, userId),
                       Taken(RowFor(db.rows, userId), TouchOf(db, catalog, w, now, userId)))
  {
    match w
    case SyncOf(_, _, _, _) => SyncTouches(db, catalog, w, now, userId);
    case LateFirstContact(_, _, _, _) => SyncTouches(db, catalog, w, now, userId);
    case OvertakenContact(seen, customer, answer, reason) =>
      ContactTouches(db, seen, customer, Project(catalog, answer), reason, now, userId);
    case Extend(seen, days) => ExtensionTouches(db, seen, days, now, userId);
    case _ =>
      EveryWriteKeepsUnique(db, catalog, w, now);
      OtherWriteTouches(db, catalog, w, now);
      StayedForEveryUser(db.rows, Apply(db, catalog, w, now).rows, userId);
  }

  lemma OneMoreTouch(row: Row, past: seq<Touch>, like: Row, touch: Touch)
    requires SameWindow(like, Touched(row, past))
    ensures SameWindow(TouchedBy(like, touch), Touched(row, past + [touch]))
  {
    assert (past + [touch])[..|past|] == past;
  }

  /** Every user's row, after any run of any writers, is the row on free taken through its history. */
  lemma {:induction false} RowFollowsItsHistory(db: Db, catalog: Catalog, ws: seq<(Write, Instant)>, userId: string)
    requires db.rows == []
    ensures SameWindow(RowFor(Run(db, catalog, ws).rows, userId), Touched(FreshRow(userId), History(db, catalog, ws, userId)))
  {
    hide Apply, TouchOf, TouchedBy;
    if ws != [] {
      var init, last := ws[..|ws| - 1], ws[|ws| - 1];
      RowFollowsItsHistory(db, catalog, init, userId);
      RowsStayUnique(db, catalog, init);
      var before, past := Run(db, catalog, init), History(db, catalog, init, userId);
      var touch := TouchOf(before, catalog, last.0, last.1, userId);
      WriteTouches(before, catalog, last.0, last.1, userId);
      if touch.Some? {
        OneMoreTouch(FreshRow(userId), past, RowFor(before.rows, userId), touch.value);
      } else {
        assert past + [] == past;
      }
    }
  }

  /** So in every reachable state a user's window, if there is one, counts from the write that started
      it plus the extensions since. */
  lemma WindowsCountFromTheirStart(db: Db, catalog: Catalog, ws: seq<(Write, Instant)>, userId: string)
    returns (k: nat, since: Instant)
    requires db.rows == [] && RowFor(Run(db, catalog, ws).rows, userId).pastDueSince.Some?
    ensures var history := History(db, catalog, ws, userId);
            && StartedAt(FreshRow(userId), history, k, since)
            && RowFor(Run(db, catalog, ws).rows, userId).pastDueSince == Some(since + DaysFrom(history, k + 1) * DAY)
  {
    hide Run, History, Touched, DaysFrom;
    RowFollowsItsHistory(db, catalog, ws, userId);
    k, since := EveryWindowStarted(FreshRow(userId), History(db, catalog, ws, userId));
    WindowNeverRestarts(FreshRow(userId), History(db, catalog, ws, userId), k, since);
  }
}
