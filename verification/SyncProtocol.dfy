/** Concurrent syncs and webhook deliveries, as interleaved steps.

    Stripe holds a versioned list of subscriptions per customer that changes at any time, and raises
    at least one event for every change; events arrive late, repeatedly and in any order. A worker
    looks the event up, claims it, takes the customer's row lock, asks Stripe, writes the row and marks
    the event processed in one commit; it can fail or die anywhere. A worker that finds no row has no lock
    to take: it asks Stripe first, then reads the row again, and inserts it or writes over what is there.

    Rows, row locks, events and Stripe's answers all belong to one customer, so every step touches one
    customer's state, and a system is a map of those.
 */
module SyncProtocol {
  import opened Models
  import opened Subscriptions
  import Billing

  type Worker = nat

  type Listed = seq<Billing.RawSubscription>

  /** What a list of subscriptions mirrors as, and whether it is ours to record. `Service` is the
      service's own; the protocol needs nothing more of it. */
  datatype Provider = Provider(project: Listed -> MirroredState, ours: Listed -> bool)

  function Service(catalog: Catalog): Provider {
    Provider(subs => Project(catalog, Billing.FetchCurrent(subs, map[])),
             subs => BelongsToThisService(catalog, Billing.FetchCurrent(subs, map[])))
  }

  /** One version of what Stripe holds, and the event it raised on moving there. `stamped`: the customer
      names its user, and nothing marks the subscription as orphaned. */
  datatype Version = Version(subs: Listed, event: string, stamped: bool)

  /** Whether a first contact records a customer that Stripe answers this of. */
  predicate Records(provider: Provider, v: Version) {
    provider.ours(v.subs) && v.stamped
  }

  datatype Phase =
    | Looking(event: Option<string>, status: Option<EventStatus>)  // what the ledger said, if anything
    | Starting(event: Option<string>)
    | Locked(event: Option<string>, since: nat)                   // the version current when it locked
    | Answered(event: Option<string>, since: nat, version: nat)
    | NoRow(event: Option<string>, since: nat)                    // the version current when it looked
    | AnsweredBlind(event: Option<string>, since: nat, version: nat)
    | HasRead(event: Option<string>, since: nat, version: nat, seen: Option<Row>)
    | Failing(event: Option<string>)
  {
    predicate HoldsLock() { Locked? || Answered? }
    predicate Blind() { NoRow? || AnsweredBlind? || HasRead? }
  }

  /** One committed write of the row; `lockedAt` is None for a first contact. */
  datatype Write = Write(event: Option<string>, version: nat, lockedAt: Option<nat>)

  /** Everything about one customer. The last four fields are what the proofs keep track of: the
      version behind the committed row, the writes so far, whether the last write was a first contact
      whose answer was old by then or whose row had moved since it read it, and whether the row came with
      the customer, at checkout. */
  datatype State = State(
    stripe: seq<Version>,
    row: Option<Row>,
    lock: Option<Worker>,
    raised: map<string, nat>,
    ledger: map<string, EventStatus>,
    workers: map<Worker, Phase>,
    mirrored: nat,
    writes: seq<Write>,
    behind: bool,
    bought: bool)

  /** A customer made outside checkout, and one made by it. */
  function Appeared(subs: Listed, event: string, stamped: bool): State {
    State([Version(subs, event, stamped)], None, None, map[event := 0], map[], map[], 0, [], false, false)
  }

  function Bought(row: Row): State {
    State([Version([], "", true)], Some(row.(mirror := NO_SUBSCRIPTION)), None, map[], map[], map[], 0, [], false, true)
  }

  datatype Step =
    | Changes(subs: Listed, e: string, stamped: bool)
    | RaisesAgain(e: string)
    | Looks(w: Worker, e: string)
    | Claims(w: Worker)
    | Begins(w: Worker)                          // resync, cancel, reconcile: no event
    | TakesLock(w: Worker)
    | FindsNoRow(w: Worker)
    | AsksStripe(w: Worker)
    | Commits(w: Worker, now: Instant)
    | ReadsRow(w: Worker)
    | Inserts(w: Worker, base: Row, now: Instant)
    | Ignores(w: Worker)
    | Fails(w: Worker)
    | RecordsFailure(w: Worker)
    | Dies(w: Worker)
    | Extends(since: Instant)

  predicate IsProcessed(s: State, e: string) {
    e in s.ledger && s.ledger[e] == Processed
  }

  predicate Enabled(s: State, provider: Provider, step: Step) {
    match step
    case Changes(_, e, _) => e !in s.raised
    case RaisesAgain(e) => e !in s.raised
    case Looks(w, e) => w !in s.workers && e in s.raised && !IsProcessed(s, e)
    case Claims(w) => w in s.workers && s.workers[w].Looking? && s.workers[w].event.Some?
    case Begins(w) => w !in s.workers
    case TakesLock(w) => w in s.workers && s.workers[w].Starting? && s.row.Some? && s.lock.None?
    case FindsNoRow(w) => w in s.workers && s.workers[w].Starting? && s.row.None?
    case AsksStripe(w) => w in s.workers && (s.workers[w].Locked? || s.workers[w].NoRow?)
    case Commits(w, _) => w in s.workers && s.workers[w].Answered? && s.row.Some?
    case ReadsRow(w) =>
      && w in s.workers && s.workers[w].AnsweredBlind?
      && s.workers[w].version < |s.stripe| && Records(provider, s.stripe[s.workers[w].version])
    case Inserts(w, _, _) => w in s.workers && s.workers[w].HasRead? && s.lock.None?
    case Ignores(w) =>
      && w in s.workers && s.workers[w].AnsweredBlind?
      && s.workers[w].version < |s.stripe| && !Records(provider, s.stripe[s.workers[w].version])
    case Fails(w) => w in s.workers && !s.workers[w].Failing? && !s.workers[w].Looking?
    case RecordsFailure(w) => w in s.workers && s.workers[w].Failing?
    case Dies(w) => w in s.workers
    case Extends(_) => s.row.Some? && s.lock.None?
  }

  /** What the row should say, going by this version of Stripe's answer. */
  function Expected(s: State, provider: Provider, version: nat): MirroredState {
    if version < |s.stripe| then provider.project(s.stripe[version].subs) else NO_SUBSCRIPTION
  }

  function Note(s: State, event: Option<string>, status: EventStatus): map<string, EventStatus> {
    if event.Some? then s.ledger[event.value := status] else s.ledger
  }

  /** The ledger after a worker claims what it looked up. It writes over whatever is there by then, except
      that an insert finds the event taken, and that `processing` over `processing` writes nothing. */
  function Claimed(s: State, p: Phase): map<string, EventStatus>
    requires p.Looking? && p.event.Some?
  {
    if p.status == Some(Processing) || Taken(s, p) then s.ledger else s.ledger[p.event.value := Processing]
  }

  /** Another delivery inserted the event first, so this one is a duplicate. */
  predicate Taken(s: State, p: Phase) {
    p.Looking? && p.event.Some? && p.status.None? && p.event.value in s.ledger
  }

  /** The row as a first contact leaves it: a new one, or the columns it changes flushed over what is there. */
  function Landed(row: Option<Row>, seen: Option<Row>, base: Row, state: MirroredState, now: Instant): Row {
    if row.None? then Written(seen.GetOr(base), state, now)
    else if seen.None? then Written(row.value, state, now)
    else Flushed(seen.value, Written(seen.value, state, now), row.value)
  }

  /** The mirror has moved since this worker read the row; one that read none takes the row locked. */
  predicate Overtaken(row: Option<Row>, seen: Option<Row>) {
    row.Some? && seen.Some? && row.value.mirror != seen.value.mirror
  }

  /** The worker's transaction is over: its lock is released. */
  function Released(s: State, w: Worker): Option<Worker> {
    if s.lock == Some(w) then None else s.lock
  }

  function Apply(s: State, provider: Provider, step: Step): State
    requires Enabled(s, provider, step) && s.stripe != []
  {
    var current := |s.stripe| - 1;
    match step
    case Changes(subs, e, stamped) => s.(stripe := s.stripe + [Version(subs, e, stamped)], raised := s.raised[e := |s.stripe|])
    case RaisesAgain(e) => s.(raised := s.raised[e := current])
    case Looks(w, e) =>
      s.(workers := s.workers[w := Looking(Some(e), if e in s.ledger then Some(s.ledger[e]) else None)])
    case Claims(w) =>
      var p := s.workers[w];
      s.(ledger := Claimed(s, p), workers := if Taken(s, p) then s.workers - {w} else s.workers[w := Starting(p.event)])
    case Begins(w) => s.(workers := s.workers[w := Starting(None)])
    case TakesLock(w) => s.(lock := Some(w), workers := s.workers[w := Locked(s.workers[w].event, current)])
    case FindsNoRow(w) => s.(workers := s.workers[w := NoRow(s.workers[w].event, current)])
    case AsksStripe(w) =>
      var p := s.workers[w];
      s.(workers := s.workers[w := if p.Locked? then Answered(p.event, p.since, current)
                                   else AnsweredBlind(p.event, p.since, current)])
    case Commits(w, now) =>
      var p := s.workers[w];
      s.(row := Some(Written(s.row.value, Expected(s, provider, p.version), now)),
         ledger := Note(s, p.event, Processed),
         lock := Released(s, w),
         workers := s.workers - {w},
         mirrored := p.version,
         writes := s.writes + [Write(p.event, p.version, Some(p.since))],
         behind := false)
    case ReadsRow(w) =>
      var p := s.workers[w];
      s.(workers := s.workers[w := HasRead(p.event, p.since, p.version, s.row)])
    case Inserts(w, base, now) =>
      var p := s.workers[w];
      s.(row := Some(Landed(s.row, p.seen, base, Expected(s, provider, p.version), now)),
         ledger := Note(s, p.event, Processed),
         workers := s.workers - {w},
         mirrored := p.version,
         writes := s.writes + [Write(p.event, p.version, None)],
         behind := p.version != current || Overtaken(s.row, p.seen))
    case Ignores(w) => s.(ledger := Note(s, s.workers[w].event, Processed), workers := s.workers - {w})
    case Fails(w) => s.(lock := Released(s, w), workers := s.workers[w := Failing(s.workers[w].event)])
    case RecordsFailure(w) => s.(ledger := Note(s, s.workers[w].event, Failed), workers := s.workers - {w})
    case Dies(w) => s.(lock := Released(s, w), workers := s.workers - {w})
    case Extends(since) => s.(row := Some(s.row.value.(pastDueSince := Some(since))))
  }

  // ---- the invariant ----

  /** Stripe's history, and the event behind each of its versions. */
  ghost predicate StripeOk(s: State) {
    && s.stripe != []
    && (forall e :: e in s.raised ==> s.raised[e] < |s.stripe|)
    && (forall v :: 0 < v < |s.stripe| ==> s.stripe[v].event in s.raised && s.raised[s.stripe[v].event] == v)
    && (forall e :: e in s.ledger ==> e in s.raised)
  }

  /** The committed row is the projection of some version of Stripe's answer, or a first contact was
      overtaken. */
  ghost predicate RowMirrors(s: State, provider: Provider) {
    && (s.row.Some? ==> s.mirrored < |s.stripe|)
    && (s.row.Some? && !s.behind ==> s.row.value.mirror == Expected(s, provider, s.mirrored))
    && (s.row.None? ==> s.writes == [] && !s.behind)
    && (s.behind ==> s.writes != [] && s.writes[|s.writes| - 1].lockedAt.None?)
    && (forall i :: 0 <= i < |s.writes| ==> s.writes[i].version < |s.stripe|)
    && (s.bought ==> s.row.Some? && !s.behind)
  }

  ghost predicate PhaseOk(s: State, w: Worker, p: Phase) {
    && (p.event.Some? ==> p.event.value in s.raised)
    && (p.HoldsLock() <==> s.lock == Some(w))
    && (p.HoldsLock() || p.Blind() ==>
          p.since < |s.stripe| && (p.event.Some? ==> s.raised[p.event.value] <= p.since))
    && (p.Answered? || p.AnsweredBlind? || p.HasRead? ==> p.since <= p.version < |s.stripe|)
    && (p.Looking? ==> p.event.Some? && p.status != Some(Processed))
    && (p.Blind() ==> !s.bought && (s.row.Some? && !s.behind ==> p.since <= s.mirrored))
    && (p.HoldsLock() ==> s.row.Some? && s.mirrored <= p.since)
  }

  /** A lock taken at this version came after everything that is settled. */
  ghost predicate LockCovers(s: State, at: nat) {
    && (forall e :: e in s.raised && IsProcessed(s, e) ==> s.raised[e] <= at)
    && (forall w :: w in s.workers && s.workers[w].Blind() ==> s.workers[w].since <= at)
    && (forall i :: 0 <= i < |s.writes| ==> s.writes[i].version <= at)
  }

  ghost predicate WorkersOk(s: State) {
    && (forall w :: w in s.workers ==> PhaseOk(s, w, s.workers[w]))
    && (s.lock.Some? ==> s.lock.value in s.workers && s.workers[s.lock.value].HoldsLock()
                         && LockCovers(s, s.workers[s.lock.value].since))
  }

  /** Nothing processed is newer than the row, unless a first contact wrote it with an old answer. */
  ghost predicate ProcessedIsMirrored(s: State) {
    s.row.Some? && !s.behind ==> forall e :: e in s.raised && IsProcessed(s, e) ==> s.raised[e] <= s.mirrored
  }

  /** A locked write is at least as new as its lock, which is at least as new as every earlier write. */
  ghost predicate WritesFresh(writes: seq<Write>) {
    && (forall j :: 0 <= j < |writes| && writes[j].lockedAt.Some? ==> writes[j].lockedAt.value <= writes[j].version)
    && (forall i, j :: 0 <= i < j < |writes| && writes[j].lockedAt.Some? ==> writes[i].version <= writes[j].lockedAt.value)
  }

  ghost predicate Inv(s: State, provider: Provider) {
    StripeOk(s) && RowMirrors(s, provider) && WorkersOk(s) && ProcessedIsMirrored(s) && WritesFresh(s.writes)
  }

  lemma StepKeepsStripe(s: State, provider: Provider, step: Step)
    requires Inv(s, provider) && Enabled(s, provider, step)
    ensures StripeOk(Apply(s, provider, step))
  {
  }

  lemma StepKeepsRow(s: State, provider: Provider, step: Step)
    requires Inv(s, provider) && Enabled(s, provider, step)
    ensures RowMirrors(Apply(s, provider, step), provider)
  {
    if step.Commits? || step.Inserts? {
      WriteKeepsRow(s, provider, step);
    }
  }

  lemma WriteKeepsRow(s: State, provider: Provider, step: Step)
    requires Inv(s, provider) && Enabled(s, provider, step) && (step.Commits? || step.Inserts?)
    ensures RowMirrors(Apply(s, provider, step), provider)
  {
  }

  /** A first contact leaves the row saying what Stripe answered it, whatever overtook it, if and only if
      the columns it had no change for still say what it read. */
  lemma InsertMirrorsIff(s: State, provider: Provider, w: Worker, base: Row, now: Instant)
    requires s.stripe != [] && Enabled(s, provider, Inserts(w, base, now))
    ensures var p := s.workers[w];
            var state := Expected(s, provider, p.version);
            Apply(s, provider, Inserts(w, base, now)).row.value.mirror == state
            <==> s.row.None? || p.seen.None? || LeftAloneAsRead(p.seen.value.mirror, state, s.row.value.mirror)
  {
    var p := s.workers[w];
    if s.row.Some? && p.seen.Some? {
      ContactMirrorsIff(p.seen.value.mirror, Expected(s, provider, p.version), s.row.value.mirror);
    }
  }

  lemma StepKeepsProgress(s: State, provider: Provider, step: Step)
    requires Inv(s, provider) && Enabled(s, provider, step)
    ensures var t := Apply(s, provider, step);
            ProcessedIsMirrored(t) && WritesFresh(t.writes)
  {
    if step.Commits? || step.Inserts? {
      WriteKeepsProgress(s, provider, step);
    }
  }

  lemma WriteKeepsProgress(s: State, provider: Provider, step: Step)
    requires Inv(s, provider) && Enabled(s, provider, step) && (step.Commits? || step.Inserts?)
    ensures var t := Apply(s, provider, step);
            ProcessedIsMirrored(t) && WritesFresh(t.writes)
  {
  }

  /** The lock the writer held covered everyone still at work without one. */
  lemma CommitKeepsWorkers(s: State, provider: Provider, w: Worker, now: Instant)
    requires Inv(s, provider) && Enabled(s, provider, Commits(w, now))
    ensures WorkersOk(Apply(s, provider, Commits(w, now)))
  {
  }

  lemma InsertKeepsWorkers(s: State, provider: Provider, w: Worker, base: Row, now: Instant)
    requires Inv(s, provider) && Enabled(s, provider, Inserts(w, base, now))
    ensures WorkersOk(Apply(s, provider, Inserts(w, base, now)))
  {
  }

  lemma FailureKeepsWorkers(s: State, provider: Provider, w: Worker)
    requires Inv(s, provider) && Enabled(s, provider, Fails(w))
    ensures WorkersOk(Apply(s, provider, Fails(w)))
  {
  }

  lemma DeathKeepsWorkers(s: State, provider: Provider, w: Worker)
    requires Inv(s, provider) && Enabled(s, provider, Dies(w))
    ensures WorkersOk(Apply(s, provider, Dies(w)))
  {
  }

  lemma SettlingKeepsWorkers(s: State, provider: Provider, step: Step)
    requires Inv(s, provider) && Enabled(s, provider, step) && (step.Ignores? || step.RecordsFailure? || step.Extends?)
    ensures WorkersOk(Apply(s, provider, step))
  {
  }

  lemma ClaimKeepsWorkers(s: State, provider: Provider, w: Worker)
    requires Inv(s, provider) && Enabled(s, provider, Claims(w))
    ensures WorkersOk(Apply(s, provider, Claims(w)))
  {
  }

  lemma LockKeepsWorkers(s: State, provider: Provider, w: Worker)
    requires Inv(s, provider) && Enabled(s, provider, TakesLock(w))
    ensures WorkersOk(Apply(s, provider, TakesLock(w)))
  {
  }

  lemma AdvanceKeepsWorkers(s: State, provider: Provider, step: Step)
    requires Inv(s, provider) && Enabled(s, provider, step)
    requires step.FindsNoRow? || step.ReadsRow?
    ensures WorkersOk(Apply(s, provider, step))
  {
  }

  lemma AskKeepsWorkers(s: State, provider: Provider, w: Worker)
    requires Inv(s, provider) && Enabled(s, provider, AsksStripe(w))
    ensures WorkersOk(Apply(s, provider, AsksStripe(w)))
  {
  }

  lemma ArrivalKeepsWorkers(s: State, provider: Provider, step: Step)
    requires Inv(s, provider) && Enabled(s, provider, step)
    requires step.Looks? || step.Begins?
    ensures WorkersOk(Apply(s, provider, step))
  {
    hide RowMirrors, ProcessedIsMirrored, WritesFresh;
  }

  lemma StripeMovesWithoutWorkers(s: State, provider: Provider, step: Step)
    requires Inv(s, provider) && Enabled(s, provider, step) && (step.Changes? || step.RaisesAgain?)
    ensures WorkersOk(Apply(s, provider, step))
  {
  }

  lemma StepKeepsWorkers(s: State, provider: Provider, step: Step)
    requires Inv(s, provider) && Enabled(s, provider, step)
    ensures WorkersOk(Apply(s, provider, step))
  {
    match step
    case Commits(w, now) => CommitKeepsWorkers(s, provider, w, now);
    case Inserts(w, base, now) => InsertKeepsWorkers(s, provider, w, base, now);
    case Fails(w) => FailureKeepsWorkers(s, provider, w);
    case Dies(w) => DeathKeepsWorkers(s, provider, w);
    case Ignores(_) => SettlingKeepsWorkers(s, provider, step);
    case RecordsFailure(_) => SettlingKeepsWorkers(s, provider, step);
    case Extends(_) => SettlingKeepsWorkers(s, provider, step);
    case TakesLock(w) => LockKeepsWorkers(s, provider, w);
    case FindsNoRow(_) => AdvanceKeepsWorkers(s, provider, step);
    case AsksStripe(w) => AskKeepsWorkers(s, provider, w);
    case Changes(_, _, _) => StripeMovesWithoutWorkers(s, provider, step);
    case RaisesAgain(_) => StripeMovesWithoutWorkers(s, provider, step);
    case ReadsRow(_) => AdvanceKeepsWorkers(s, provider, step);
    case Claims(w) => ClaimKeepsWorkers(s, provider, w);
    case _ => ArrivalKeepsWorkers(s, provider, step);
  }

  lemma StepKeepsInv(s: State, provider: Provider, step: Step)
    requires Inv(s, provider) && Enabled(s, provider, step)
    ensures Inv(Apply(s, provider, step), provider)
  {
    StepKeepsStripe(s, provider, step);
    StepKeepsRow(s, provider, step);
    StepKeepsWorkers(s, provider, step);
    StepKeepsProgress(s, provider, step);
  }

  // ---- runs of the whole system ----

  datatype SystemStep =
    | Appears(c: string, subs: Listed, e: string, stamped: bool)
    | Buys(c: string, row: Row)
    | Does(c: string, step: Step)

  type System = map<string, State>

  predicate SystemEnabled(sys: System, provider: Provider, step: SystemStep) {
    match step
    case Does(c, step) => c in sys && sys[c].stripe != [] && Enabled(sys[c], provider, step)
    case _ => step.c !in sys
  }

  function SystemApply(sys: System, provider: Provider, step: SystemStep): System
    requires SystemEnabled(sys, provider, step)
  {
    match step
    case Appears(c, subs, e, stamped) => sys[c := Appeared(subs, e, stamped)]
    case Buys(c, row) => sys[c := Bought(row)]
    case Does(c, step) => sys[c := Apply(sys[c], provider, step)]
  }

  /** The system after these steps, or None if one of them was not enabled. */
  function Run(provider: Provider, steps: seq<SystemStep>): Option<System> {
    if steps == [] then Some(map[])
    else
      match Run(provider, steps[..|steps| - 1])
      case None => None
      case Some(sys) =>
        var last := steps[|steps| - 1];
        if SystemEnabled(sys, provider, last) then Some(SystemApply(sys, provider, last)) else None
  }

  lemma {:induction false} RunKeepsInv(provider: Provider, steps: seq<SystemStep>)
    requires provider.project([]) == NO_SUBSCRIPTION
    ensures Run(provider, steps).Some? ==>
              forall c :: c in Run(provider, steps).value ==> Inv(Run(provider, steps).value[c], provider)
  {
    if steps != [] && Run(provider, steps).Some? {
      RunKeepsInv(provider, steps[..|steps| - 1]);
      var sys := Run(provider, steps[..|steps| - 1]).value;
      var last := steps[|steps| - 1];
      if last.Does? { StepKeepsInv(sys[last.c], provider, last.step); }
    }
  }

  lemma InvConverges(s: State, provider: Provider)
    requires Inv(s, provider) && s.row.Some? && !s.behind
    ensures s.row.value.mirror == provider.project(s.stripe[|s.stripe| - 1].subs)
            || exists e :: e in s.raised && s.mirrored < s.raised[e] && !IsProcessed(s, e)
  {
    if s.mirrored < |s.stripe| - 1 {
      var e := s.stripe[|s.stripe| - 1].event;
      assert e in s.raised && s.raised[e] == |s.stripe| - 1;
    }
  }

  /** Some event raised since the version the row shows is still not processed. */
  ghost predicate Outstanding(s: State) {
    exists e :: e in s.raised && s.mirrored < s.raised[e] && !IsProcessed(s, e)
  }

  /** The row says what Stripe holds now, or something is on its way to say so. */
  ghost predicate Converging(s: State, provider: Provider) {
    s.row.Some? && s.stripe != [] ==>
      s.row.value.mirror == provider.project(s.stripe[|s.stripe| - 1].subs) || Outstanding(s)
  }

  /** Webhook convergence. In every reachable state, each customer with a row is mirrored exactly, or
      an event raised since the version its row shows is still not processed; so once every event is
      processed the mirror is exact. The one exception is a row whose last write was a first contact, made
      without the lock, with an answer that was old by then or over a row that had moved; it cannot happen
      to a customer made at checkout, nor to any row whose last write was made under the lock. */
  lemma WebhooksConverge(catalog: Catalog, steps: seq<SystemStep>, c: string)
    requires Run(Service(catalog), steps).Some? && c in Run(Service(catalog), steps).value
    ensures var s := Run(Service(catalog), steps).value[c];
            && s.stripe != []
            && (Converging(s, Service(catalog)) || s.behind)
            && (s.behind ==> !s.bought && s.writes != [] && s.writes[|s.writes| - 1].lockedAt.None?)
  {
    var provider := Service(catalog);
    RunKeepsInv(provider, steps);
    var s := Run(provider, steps).value[c];
    if s.row.Some? && !s.behind { InvConverges(s, provider); }
  }

  /** Lock-before-fetch freshness. Every write made under the lock carries an answer at least as new
      as the version current when the lock was taken, and as every write committed before it; so along
      any run of locked writes the version never decreases. */
  lemma LockedWritesNeverGoBack(catalog: Catalog, steps: seq<SystemStep>, c: string, i: nat, j: nat)
    requires Run(Service(catalog), steps).Some? && c in Run(Service(catalog), steps).value
    requires var writes := Run(Service(catalog), steps).value[c].writes;
             i < j < |writes| && writes[j].lockedAt.Some?
    ensures var writes := Run(Service(catalog), steps).value[c].writes;
            writes[i].version <= writes[j].lockedAt.value <= writes[j].version
  {
    RunKeepsInv(Service(catalog), steps);
  }

  /** One locked write repairs a row a first contact left behind. */
  lemma LockedWriteHeals(s: State, provider: Provider, w: Worker, now: Instant)
    requires Inv(s, provider) && Enabled(s, provider, Commits(w, now))
    ensures var t := Apply(s, provider, Commits(w, now));
            !t.behind && t.mirrored == s.workers[w].version && s.mirrored <= t.mirrored
            && forall e :: e in t.raised && IsProcessed(t, e) ==> t.raised[e] <= t.mirrored
  {
    StepKeepsInv(s, provider, Commits(w, now));
  }

  // ---- asking before locking ----

  /** Runs steps of one customer, each of them enabled in its turn. */
  ghost predicate Reaches(s: State, provider: Provider, steps: seq<Step>, t: State)
    decreases |steps|
  {
    if steps == [] then s == t
    else s.stripe != [] && Enabled(s, provider, steps[0]) && Reaches(Apply(s, provider, steps[0]), provider, steps[1..], t)
  }

  lemma {:induction false} ReachesOn(s: State, provider: Provider, steps: seq<Step>, mid: State, more: seq<Step>, t: State)
    requires Reaches(s, provider, steps, mid) && Reaches(mid, provider, more, t)
    ensures Reaches(s, provider, steps + more, t)
    decreases |steps|
  {
    if steps == [] {
      assert steps + more == more;
    } else {
      ReachesOn(Apply(s, provider, steps[0]), provider, steps[1..], mid, more, t);
      assert (steps + more)[1..] == steps[1..] + more;
    }
  }

  lemma One(s: State, provider: Provider, step: Step)
    requires s.stripe != [] && Enabled(s, provider, step)
    ensures Reaches(s, provider, [step], Apply(s, provider, step))
  {
    assert [step][1..] == [];
  }

  /** Everything has been processed, and still the row does not show what Stripe holds. */
  ghost predicate StuckOn(s: State, provider: Provider, shown: Listed, held: Listed) {
    && s.row.Some? && s.row.value.mirror == provider.project(shown)
    && s.stripe != [] && s.stripe[|s.stripe| - 1].subs == held
    && s.workers == map[] && s.behind
    && forall e :: e in s.raised ==> IsProcessed(s, e)
  }

  lemma TwoSteps(s: State, provider: Provider, a: Step, b: Step)
    requires s.stripe != [] && Enabled(s, provider, a) && Apply(s, provider, a).stripe != []
    requires Enabled(Apply(s, provider, a), provider, b)
    ensures Reaches(s, provider, [a] + [b], Apply(Apply(s, provider, a), provider, b))
  {
    One(s, provider, a);
    One(Apply(s, provider, a), provider, b);
    ReachesOn(s, provider, [a], Apply(s, provider, a), [b], Apply(Apply(s, provider, a), provider, b));
  }

  /** A delivery's first two steps, of an event nobody has looked up before. */
  lemma LooksAndClaims(s: State, provider: Provider, w: Worker, e: string)
    requires s.stripe != [] && w !in s.workers && e in s.raised && e !in s.ledger
    ensures Reaches(s, provider, [Looks(w, e)] + [Claims(w)],
                    s.(ledger := s.ledger[e := Processing], workers := s.workers[w := Starting(Some(e))]))
  {
    TwoSteps(s, provider, Looks(w, e), Claims(w));
    var next := Apply(Apply(s, provider, Looks(w, e)), provider, Claims(w));
    assert next.workers == s.workers[w := Starting(Some(e))];
  }

  /** A first delivery of `e`, up to Stripe's answer: it found no row, so it holds no lock. */
  lemma AsksBlind(s: State, provider: Provider, w: Worker, e: string) returns (steps: seq<Step>)
    requires s.stripe != [] && s.row.None? && w !in s.workers && e in s.raised && e !in s.ledger
    ensures var now := |s.stripe| - 1;
            Reaches(s, provider, steps, s.(ledger := s.ledger[e := Processing],
                                           workers := s.workers[w := AnsweredBlind(Some(e), now, now)]))
  {
    LooksAndClaims(s, provider, w, e);
    var s2 := s.(ledger := s.ledger[e := Processing], workers := s.workers[w := Starting(Some(e))]);
    TwoSteps(s2, provider, FindsNoRow(w), AsksStripe(w));
    var s4 := Apply(Apply(s2, provider, FindsNoRow(w)), provider, AsksStripe(w));
    assert s4.workers == s.workers[w := AnsweredBlind(Some(e), |s.stripe| - 1, |s.stripe| - 1)];
    steps := [Looks(w, e)] + [Claims(w)] + ([FindsNoRow(w)] + [AsksStripe(w)]);
    ReachesOn(s, provider, [Looks(w, e)] + [Claims(w)], s2, [FindsNoRow(w)] + [AsksStripe(w)], s4);
  }

  /** Where two first deliveries have both asked, the first of them before the change. */
  function BothAsked(older: Listed, newer: Listed, stamped: bool, e: string, f: string): State {
    Appeared(older, e, true).(
      stripe := [Version(older, e, true), Version(newer, f, stamped)],
      raised := map[e := 0, f := 1],
      ledger := map[e := Processing, f := Processing],
      workers := map[1 := AnsweredBlind(Some(e), 0, 0), 2 := AnsweredBlind(Some(f), 1, 1)])
  }

  lemma BothAsk(provider: Provider, older: Listed, newer: Listed, stamped: bool, e: string, f: string) returns (steps: seq<Step>)
    requires e != f
    ensures Reaches(Appeared(older, e, true), provider, steps, BothAsked(older, newer, stamped, e, f))
  {
    var s0, change := Appeared(older, e, true), Changes(newer, f, stamped);
    var asks := AsksBlind(s0, provider, 1, e);
    var s1 := s0.(ledger := map[e := Processing], workers := map[1 := AnsweredBlind(Some(e), 0, 0)]);
    var s2 := Apply(s1, provider, change);
    One(s1, provider, change);
    ReachesOn(s0, provider, asks, s1, [change], s2);
    steps := asks + [change];
    asks := AsksBlind(s2, provider, 2, f);
    var s3 := s2.(ledger := s2.ledger[f := Processing], workers := s2.workers[2 := AnsweredBlind(Some(f), 1, 1)]);
    assert s3 == BothAsked(older, newer, stamped, e, f);
    ReachesOn(s0, provider, steps, s2, asks, s3);
    steps := steps + asks;
  }

  /** A first contact reads the row again and lands at once. */
  lemma Contacts(s: State, provider: Provider, w: Worker, base: Row, now: Instant) returns (steps: seq<Step>, t: State)
    requires s.stripe != [] && s.lock.None? && w in s.workers && s.workers[w].AnsweredBlind?
    requires s.workers[w].version < |s.stripe| && Records(provider, s.stripe[s.workers[w].version])
    ensures Reaches(s, provider, steps, t)
    ensures var p := s.workers[w];
            && t.row.Some? && t.row.value.mirror == Expected(s, provider, p.version)
            && t == s.(row := t.row, ledger := Note(s, p.event, Processed), workers := s.workers - {w}, mirrored := p.version,
                       writes := s.writes + [Write(p.event, p.version, None)], behind := p.version != |s.stripe| - 1)
  {
    TwoSteps(s, provider, ReadsRow(w), Inserts(w, base, now));
    steps, t := [ReadsRow(w)] + [Inserts(w, base, now)], Apply(Apply(s, provider, ReadsRow(w)), provider, Inserts(w, base, now));
    assert t.workers == s.workers - {w};
  }

  /** The trace that fetch-then-lock allows. Two first deliveries race: the one that asked Stripe
      first inserts last, over the newer row, and nothing is left to correct it. */
  lemma AskingFirstLosesAnUpdate(provider: Provider, older: Listed, newer: Listed, e: string, f: string)
    returns (steps: seq<Step>, t: State)
    requires provider.ours(older) && provider.ours(newer) && e != f
    ensures Reaches(Appeared(older, e, true), provider, steps, t) && StuckOn(t, provider, older, newer)
  {
    var s0, s := Appeared(older, e, true), BothAsked(older, newer, true, e, f);
    steps := BothAsk(provider, older, newer, true, e, f);
    var second, s1 := Contacts(s, provider, 2, FreshRow("u"), 0);
    ReachesOn(s0, provider, steps, s, second, s1);
    var first, s2 := Contacts(s1, provider, 1, FreshRow("u"), 1);
    ReachesOn(s0, provider, steps + second, s1, first, s2);
    steps, t := steps + second + first, s2;
  }

  /** Even the first insert can be stale. It asked while the subscription was ours to record; another
      delivery then saw that it no longer was, whether on a price of ours no more, without its user, or
      marked as orphaned, and settled its event by ignoring it. */
  lemma IgnoringLosesAnUpdate(provider: Provider, older: Listed, newer: Listed, stamped: bool, e: string, f: string)
    returns (steps: seq<Step>, t: State)
    requires provider.ours(older) && !(provider.ours(newer) && stamped) && e != f
    ensures Reaches(Appeared(older, e, true), provider, steps, t) && StuckOn(t, provider, older, newer)
  {
    var s0, s := Appeared(older, e, true), BothAsked(older, newer, stamped, e, f);
    steps := BothAsk(provider, older, newer, stamped, e, f);
    var s1 := Apply(s, provider, Ignores(2));
    One(s, provider, Ignores(2));
    ReachesOn(s0, provider, steps, s, [Ignores(2)], s1);
    var last, s2 := Contacts(s1, provider, 1, FreshRow("u"), 1);
    ReachesOn(s0, provider, steps + [Ignores(2)], s1, last, s2);
    steps, t := steps + [Ignores(2)] + last, s2;
  }

  lemma {:induction false} ReachesKeepsInv(s: State, provider: Provider, steps: seq<Step>, t: State)
    requires Inv(s, provider) && Reaches(s, provider, steps, t)
    ensures Inv(t, provider) && t.bought == s.bought
    decreases |steps|
  {
    if steps != [] {
      StepKeepsInv(s, provider, steps[0]);
      ReachesKeepsInv(Apply(s, provider, steps[0]), provider, steps[1..], t);
    }
  }

  ghost predicate AlwaysConverging(s: State, provider: Provider) {
    forall steps, t :: Reaches(s, provider, steps, t) ==> Converging(t, provider)
  }

  /** Every run of a customer goes on converging if and only if its row came with it, at checkout: made
      anywhere else, some run ends with every event processed and an old row. All this takes of Stripe is
      two lists of ours that mirror differently. */
  lemma ConvergesIffBought(provider: Provider, row: Row, older: Listed, newer: Listed, e: string, f: string)
    requires provider.project([]) == NO_SUBSCRIPTION
    requires provider.ours(older) && provider.ours(newer) && provider.project(older) != provider.project(newer) && e != f
    ensures AlwaysConverging(Bought(row), provider) && !AlwaysConverging(Appeared(older, e, true), provider)
  {
    forall steps, t | Reaches(Bought(row), provider, steps, t) ensures Converging(t, provider) {
      ReachesKeepsInv(Bought(row), provider, steps, t);
      InvConverges(t, provider);
    }
    var steps, t := AskingFirstLosesAnUpdate(provider, older, newer, e, f);
    assert !Converging(t, provider);
  }

  // ---- what is written is what was answered ----

  predicate IsStepOf(step: Step, w: Worker) {
    !step.Changes? && !step.RaisesAgain? && !step.Extends? && step.w == w
  }

  lemma OthersLeaveHimBe(s: State, provider: Provider, step: Step, w: Worker)
    requires s.stripe != [] && Enabled(s, provider, step) && w in s.workers && !IsStepOf(step, w)
    ensures var t := Apply(s, provider, step);
            && w in t.workers && t.workers[w] == s.workers[w]
            && |s.stripe| <= |t.stripe| && t.stripe[..|s.stripe|] == s.stripe
  {
  }

  /** An answer stays in a worker's hands until that worker goes on. */
  lemma {:induction false} AnswerIsKept(s: State, provider: Provider, steps: seq<Step>, t: State, w: Worker)
    requires Reaches(s, provider, steps, t) && w in s.workers && s.stripe != []
    requires forall i :: 0 <= i < |steps| ==> !IsStepOf(steps[i], w)
    ensures w in t.workers && t.workers[w] == s.workers[w]
    ensures |s.stripe| <= |t.stripe| && t.stripe[..|s.stripe|] == s.stripe
    decreases |steps|
  {
    hide Apply, Enabled, IsStepOf;
    if steps != [] {
      assert forall i :: 0 <= i < |steps[1..]| ==> steps[1..][i] == steps[i + 1];
      OthersLeaveHimBe(s, provider, steps[0], w);
      AnswerIsKept(Apply(s, provider, steps[0]), provider, steps[1..], t, w);
    }
  }

  lemma AsksWhatIsThere(s: State, provider: Provider, w: Worker)
    requires s.stripe != [] && Enabled(s, provider, AsksStripe(w)) && s.workers[w].Locked?
    ensures var t := Apply(s, provider, AsksStripe(w));
            t.stripe == s.stripe && w in t.workers && t.workers[w].Answered? && t.workers[w].version == |s.stripe| - 1
  {
  }

  lemma CommitsItsAnswer(s: State, provider: Provider, w: Worker, now: Instant)
    requires s.stripe != [] && Enabled(s, provider, Commits(w, now)) && s.workers[w].version < |s.stripe|
    ensures var row := Apply(s, provider, Commits(w, now)).row;
            row.Some? && row.value.mirror == provider.project(s.stripe[s.workers[w].version].subs)
  {
  }

  /** What a worker commits under its lock is what Stripe held at the step it asked, whatever anybody else did,
      and whatever Stripe moved on to, in between. */
  lemma WritesWhatWasAnswered(s: State, provider: Provider, steps: seq<Step>, t: State, w: Worker, now: Instant)
    requires s.stripe != [] && Enabled(s, provider, AsksStripe(w)) && s.workers[w].Locked?
    requires Reaches(Apply(s, provider, AsksStripe(w)), provider, steps, t)
    requires forall i :: 0 <= i < |steps| ==> !IsStepOf(steps[i], w)
    requires Enabled(t, provider, Commits(w, now)) && t.stripe != []
    ensures var after := Apply(t, provider, Commits(w, now));
            after.row.Some? && after.row.value.mirror == provider.project(s.stripe[|s.stripe| - 1].subs)
  {
    hide Apply, Enabled, IsStepOf;
    AsksWhatIsThere(s, provider, w);
    AnswerIsKept(Apply(s, provider, AsksStripe(w)), provider, steps, t, w);
    assert t.stripe[|s.stripe| - 1] == t.stripe[..|s.stripe|][|s.stripe| - 1];
    CommitsItsAnswer(t, provider, w, now);
  }

  // ---- processing can be claimed again ----

  /** A delivery of `e` is in hand: somewhere between its look at the ledger and its end. One that found
      nothing there, where there is something by now, is a duplicate and no more. */
  ghost predicate Held(s: State, e: string) {
    exists w :: w in s.workers && Holds(s, s.workers[w], e)
  }

  predicate Holds(s: State, p: Phase, e: string) {
    p.event == Some(e) && !Taken(s, p)
  }

  /** How many committed writes were made for this event. */
  function WritesFor(writes: seq<Write>, e: string): nat {
    if writes == [] then 0
    else WritesFor(writes[..|writes| - 1], e) + if writes[|writes| - 1].event == Some(e) then 1 else 0
  }

  /** A processed event stops being so at two kinds of step only: another delivery of it records its
      failure, or one that had looked it up while it was failed makes its claim. */
  lemma UnprocessedOnlyByLateSteps(s: State, provider: Provider, step: Step, e: string)
    requires s.stripe != [] && Enabled(s, provider, step) && IsProcessed(s, e)
    ensures IsProcessed(Apply(s, provider, step), e)
            <==> && !(step.RecordsFailure? && s.workers[step.w].event == Some(e))
                 && !(step.Claims? && s.workers[step.w].event == Some(e) && s.workers[step.w].status.Some?
                      && s.workers[step.w].status.value != Processing)
  {
  }

  lemma StepAfterSettling(s: State, provider: Provider, step: Step, e: string)
    requires s.stripe != [] && Enabled(s, provider, step) && IsProcessed(s, e) && !Held(s, e)
    ensures var t := Apply(s, provider, step);
            t.stripe != [] && IsProcessed(t, e) && !Held(t, e) && WritesFor(t.writes, e) == WritesFor(s.writes, e)
  {
    var t := Apply(s, provider, step);
    assert forall w :: w in s.workers ==> !Holds(s, s.workers[w], e);
    if t.writes != s.writes {
      assert t.writes[..|t.writes| - 1] == s.writes;
    }
    forall w | w in t.workers ensures !Holds(t, t.workers[w], e) {
    }
  }

  /** Processed with no delivery of it in hand: nothing is committed for it again, ever. */
  lemma {:induction false} SettledForGood(s: State, provider: Provider, steps: seq<Step>, t: State, e: string)
    requires s.stripe != [] && IsProcessed(s, e) && !Held(s, e) && Reaches(s, provider, steps, t)
    ensures IsProcessed(t, e) && WritesFor(t.writes, e) == WritesFor(s.writes, e)
    decreases |steps|
  {
    if steps != [] {
      StepAfterSettling(s, provider, steps[0], e);
      SettledForGood(Apply(s, provider, steps[0]), provider, steps[1..], t, e);
    }
  }

  /** Past its claim, a delivery can fail and say so, whatever the ledger says. */
  lemma ADeliveryCanFail(s: State, provider: Provider, w: Worker, e: string) returns (steps: seq<Step>, t: State)
    requires s.stripe != [] && w in s.workers && s.workers[w].event == Some(e) && !s.workers[w].Looking?
    ensures Reaches(s, provider, steps, t) && !IsProcessed(t, e)
  {
    if s.workers[w].Failing? {
      steps, t := [RecordsFailure(w)], Apply(s, provider, RecordsFailure(w));
      One(s, provider, RecordsFailure(w));
    } else {
      steps, t := [Fails(w)] + [RecordsFailure(w)], Apply(Apply(s, provider, Fails(w)), provider, RecordsFailure(w));
      TwoSteps(s, provider, Fails(w), RecordsFailure(w));
    }
  }

  lemma AHeldEventCanBeUnprocessed(s: State, provider: Provider, e: string) returns (steps: seq<Step>, t: State)
    requires s.stripe != [] && Held(s, e)
    ensures Reaches(s, provider, steps, t) && !IsProcessed(t, e)
  {
    var w :| w in s.workers && Holds(s, s.workers[w], e);
    if s.workers[w].Looking? {
      var next := Apply(s, provider, Claims(w));
      One(s, provider, Claims(w));
      var rest;
      rest, t := ADeliveryCanFail(next, provider, w, e);
      steps := [Claims(w)] + rest;
      ReachesOn(s, provider, [Claims(w)], next, rest, t);
    } else {
      steps, t := ADeliveryCanFail(s, provider, w, e);
    }
  }

  ghost predicate StaysProcessed(s: State, provider: Provider, e: string) {
    forall steps, t :: Reaches(s, provider, steps, t) ==> IsProcessed(t, e)
  }

  /** A processed event stays processed, whatever happens, if and only if no delivery of it is in hand. */
  lemma StaysProcessedIff(s: State, provider: Provider, e: string)
    requires s.stripe != [] && IsProcessed(s, e)
    ensures StaysProcessed(s, provider, e) <==> !Held(s, e)
  {
    if Held(s, e) {
      var steps, t := AHeldEventCanBeUnprocessed(s, provider, e);
    } else {
      forall steps, t | Reaches(s, provider, steps, t) ensures IsProcessed(t, e) {
        SettledForGood(s, provider, steps, t, e);
      }
    }
  }

  /** One delivery under the lock, from its claim to its commit. */
  lemma DeliversUnderLock(s: State, provider: Provider, w: Worker, e: string, now: Instant)
    returns (steps: seq<Step>, t: State)
    requires s.stripe != [] && s.row.Some? && s.lock.None?
    requires w in s.workers && s.workers[w] == Starting(Some(e))
    ensures Reaches(s, provider, steps, t) && t.stripe == s.stripe && t.raised == s.raised && t.row.Some? && t.lock.None?
    ensures t.row == Some(Written(s.row.value, Expected(s, provider, |s.stripe| - 1), now))
    ensures t.workers == s.workers - {w} && t.ledger == s.ledger[e := Processed]
    ensures t.writes == s.writes + [Write(Some(e), |s.stripe| - 1, Some(|s.stripe| - 1))]
  {
    var s1 := Apply(s, provider, TakesLock(w));
    var s2 := Apply(s1, provider, AsksStripe(w));
    t := Apply(s2, provider, Commits(w, now));
    One(s, provider, TakesLock(w));
    TwoSteps(s1, provider, AsksStripe(w), Commits(w, now));
    steps := [TakesLock(w)] + ([AsksStripe(w)] + [Commits(w, now)]);
    ReachesOn(s, provider, [TakesLock(w)], s1, [AsksStripe(w)] + [Commits(w, now)], t);
  }

  lemma DeliverOneAfterTheOther(s: State, provider: Provider, a: Worker, b: Worker, e: string)
    returns (steps: seq<Step>, t: State)
    requires s.stripe != [] && s.row.Some? && s.lock.None? && a != b
    requires a in s.workers && s.workers[a] == Starting(Some(e)) && b in s.workers && s.workers[b] == Starting(Some(e))
    ensures Reaches(s, provider, steps, t) && IsProcessed(t, e) && WritesFor(t.writes, e) == WritesFor(s.writes, e) + 2
  {
    hide Apply, Enabled;
    var first, s1 := DeliversUnderLock(s, provider, a, e, 0);
    var second, s2 := DeliversUnderLock(s1, provider, b, e, 0);
    ReachesOn(s, provider, first, s1, second, s2);
    steps, t := first + second, s2;
    assert s1.writes[..|s1.writes| - 1] == s.writes && s2.writes[..|s2.writes| - 1] == s1.writes;
  }

  /** Two deliveries of one event have looked it up before either claims it; it had failed before. */
  lemma BothLook(s: State, provider: Provider, a: Worker, b: Worker, e: string)
    requires s.stripe != [] && e in s.raised && e in s.ledger && s.ledger[e] == Failed
    requires a != b && a !in s.workers && b !in s.workers
    ensures Reaches(s, provider, [Looks(a, e)] + [Looks(b, e)],
                    s.(workers := s.workers[a := Looking(Some(e), Some(Failed))][b := Looking(Some(e), Some(Failed))]))
  {
    TwoSteps(s, provider, Looks(a, e), Looks(b, e));
  }

  /** The first of them claims the event and is done before the second claims it. */
  lemma FirstIsDone(s: State, provider: Provider, a: Worker, b: Worker, e: string) returns (steps: seq<Step>, done: State)
    requires s.stripe != [] && s.row.Some? && s.lock.None? && e in s.raised && e in s.ledger && s.ledger[e] == Failed
    requires a != b && a !in s.workers && b !in s.workers
    ensures Reaches(s, provider, steps, done) && IsProcessed(done, e)
    ensures done.stripe == s.stripe && done.row.Some? && done.lock.None?
    ensures done.workers == s.workers[b := Looking(Some(e), Some(Failed))]
    ensures WritesFor(done.writes, e) == WritesFor(s.writes, e) + 1
  {
    var looked := s.(workers := s.workers[a := Looking(Some(e), Some(Failed))][b := Looking(Some(e), Some(Failed))]);
    BothLook(s, provider, a, b, e);
    var claimed := looked.(ledger := s.ledger[e := Processing], workers := looked.workers[a := Starting(Some(e))]);
    One(looked, provider, Claims(a));
    ReachesOn(s, provider, [Looks(a, e)] + [Looks(b, e)], looked, [Claims(a)], claimed);
    steps := [Looks(a, e)] + [Looks(b, e)] + [Claims(a)];
    var delivers;
    delivers, done := DeliversUnderLock(claimed, provider, a, e, 0);
    ReachesOn(s, provider, steps, claimed, delivers, done);
    steps := steps + delivers;
    assert done.workers == s.workers[b := Looking(Some(e), Some(Failed))];
    assert done.writes[..|done.writes| - 1] == s.writes;
  }

  /** The trace of a late claim. Two deliveries look an event up while it is failed. One claims it, commits
      its effects and the mark; at that moment nobody else has claimed it. Then the other claims it, over
      the mark, and either commits the effects once more or is gone and leaves the event unprocessed. */
  lemma ALateClaimUnprocesses(s: State, provider: Provider, a: Worker, b: Worker, e: string)
    returns (steps: seq<Step>, done: State, again: seq<Step>, twice: State, dies: seq<Step>, left: State)
    requires s.stripe != [] && s.row.Some? && s.lock.None? && e in s.raised && e in s.ledger && s.ledger[e] == Failed
    requires a != b && a !in s.workers && b !in s.workers
    ensures Reaches(s, provider, steps, done) && IsProcessed(done, e)
            && done.workers == s.workers[b := Looking(Some(e), Some(Failed))]
    ensures Reaches(done, provider, again, twice) && IsProcessed(twice, e) && WritesFor(twice.writes, e) == WritesFor(s.writes, e) + 2
    ensures Reaches(done, provider, dies, left) && !IsProcessed(left, e) && left.workers == s.workers
  {
    steps, done := FirstIsDone(s, provider, a, b, e);
    var late := Apply(done, provider, Claims(b));
    One(done, provider, Claims(b));
    var delivers;
    delivers, twice := DeliversUnderLock(late, provider, b, e, 0);
    again := [Claims(b)] + delivers;
    ReachesOn(done, provider, [Claims(b)], late, delivers, twice);
    assert twice.writes[..|twice.writes| - 1] == done.writes;
    dies, left := [Claims(b)] + [Dies(b)], Apply(late, provider, Dies(b));
    TwoSteps(done, provider, Claims(b), Dies(b));
    assert left.workers == s.workers;
  }

  lemma BothClaim(s: State, provider: Provider, a: Worker, b: Worker, e: string) returns (steps: seq<Step>)
    requires s.stripe != [] && e in s.raised && e !in s.ledger && a != b && a !in s.workers && b !in s.workers
    ensures Reaches(s, provider, steps, s.(ledger := s.ledger[e := Processing],
                                           workers := s.workers[a := Starting(Some(e))][b := Starting(Some(e))]))
  {
    LooksAndClaims(s, provider, a, e);
    var s1 := s.(ledger := s.ledger[e := Processing], workers := s.workers[a := Starting(Some(e))]);
    var s2 := s1.(workers := s1.workers[b := Starting(Some(e))]);
    TwoSteps(s1, provider, Looks(b, e), Claims(b));
    assert Apply(Apply(s1, provider, Looks(b, e)), provider, Claims(b)) == s2;
    steps := [Looks(a, e)] + [Claims(a)];
    ReachesOn(s, provider, steps, s1, [Looks(b, e)] + [Claims(b)], s2);
    steps := steps + ([Looks(b, e)] + [Claims(b)]);
  }

  /** The other trace. Two deliveries are both claimed before either is done, the second while the first is
      processing, and the effects are committed twice. */
  lemma TwoClaimsCommitTwice(s: State, provider: Provider, a: Worker, b: Worker, e: string)
    returns (steps: seq<Step>, t: State)
    requires s.stripe != [] && s.row.Some? && s.lock.None? && e in s.raised && e !in s.ledger
    requires a != b && a !in s.workers && b !in s.workers
    ensures Reaches(s, provider, steps, t) && IsProcessed(t, e) && WritesFor(t.writes, e) == WritesFor(s.writes, e) + 2
  {
    steps := BothClaim(s, provider, a, b, e);
    var s2 := s.(ledger := s.ledger[e := Processing], workers := s.workers[a := Starting(Some(e))][b := Starting(Some(e))]);
    var deliver;
    deliver, t := DeliverOneAfterTheOther(s2, provider, a, b, e);
    ReachesOn(s, provider, steps, s2, deliver, t);
    steps := steps + deliver;
  }
}
