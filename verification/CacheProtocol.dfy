/** Readers, writers and the cache, as interleaved steps: when a cached answer can be wrong.

    One user's key. Any number of writers commit any of the service's writes; those that marked the
    user delete the key afterwards, or fail to, or never knew (a plain commit drops the mark). Any
    number of readers miss, read the database, and store what they read some time later.
 */
module CacheProtocol {
  import opened Models
  import opened Subscriptions
  import opened Admin
  import opened Writers
  import opened EntitlementReads
  import opened Cache

  // ---- who each write marks ----

  /** The users a transaction marks as changed. */
  function Marks(db: Db, catalog: Catalog, w: Write, now: Instant): set<string> {
    match w
    case SyncOf(customer, stripe, event, reason) =>
      var r := Sync(db, catalog, stripe, customer, event, reason, now);
      if r.Synced? then r.marks else {}
    case LateFirstContact(customer, userId, answer, reason) =>
      var (rows, i) := Claimed(db.rows, customer, userId);
      var r := WriteBack(db, rows, i, Project(catalog, answer), None, reason, now);
      if r.Synced? then r.marks else {}
    case OvertakenContact(seen, customer, answer, reason) =>
      var r := Contact(db, seen, customer, Project(catalog, answer), None, reason, now);
      if r.Synced? then r.marks else {}
    case Extend(seen, days) => if ExtendGrace(db, seen, days, now).Some? then {seen.userId} else {}
    case Comp(userId, tier, expiresAt) => if tier != Tier.Free then {userId} else {}
    case Revoke(id) => if id < |db.grants| && db.grants[id].revokedAt.None? then {db.grants[id].userId} else {}
    case LateRevokeOf(id) => if id < |db.grants| then {db.grants[id].userId} else {}
    case _ => {}
  }

  lemma {:induction false} AnothersGrant(grants: seq<Grant>, id: nat, g: Grant, userId: string, t: Instant)
    requires id < |grants| && grants[id].userId == g.userId != userId
    ensures ActiveGrantTier(grants[id := g], userId, t) == ActiveGrantTier(grants, userId, t)
  {
    var init := grants[..|grants| - 1];
    if id == |grants| - 1 {
      assert grants[id := g][..|grants| - 1] == init;
    } else {
      assert grants[id := g][..|grants| - 1] == init[id := g];
      AnothersGrant(init, id, g, userId, t);
    }
  }

  /** The writers that rewrite one row in place, or add one on free. */
  lemma UnmarkedRewriteIsHarmless(settings: Settings, db: Db, catalog: Catalog, w: Write, now: Instant, userId: string, t: Instant)
    requires UniqueRows(db.rows) && userId !in Marks(db, catalog, w, now)
    requires w.DisputeOf? || w.SignUp? || w.CheckoutOf? || w.LateCheckoutOf? || w.Extend?
    ensures ResolveFromDb(settings, Writers.Apply(db, catalog, w, now), userId, t) == ResolveFromDb(settings, db, userId, t)
  {
    var later := Writers.Apply(db, catalog, w, now);
    if later != db {
      EveryWriteKeepsUnique(db, catalog, w, now);
      var rows, i := db.rows, 0;
      match w {
        case DisputeOf(seen, event) => i := Find(db.rows, ByUser(seen.userId)).value;
        case Extend(seen, days) => i := Find(db.rows, ByUser(seen.userId)).value;
        case LateCheckoutOf(user, _) => i := Find(db.rows, ByUser(user)).value;
        case SignUp(user) => rows, i := GetOrCreate(db.rows, user).0, GetOrCreate(db.rows, user).1;
        case CheckoutOf(user, _, _, _) => rows, i := GetOrCreate(db.rows, user).0, GetOrCreate(db.rows, user).1;
      }
      assert later.rows == rows[i := later.rows[i]];
      RewriteIsHarmless(settings, db, rows, i, later.rows[i], later, userId, t);
    }
  }

  lemma AnothersNewGrant(grants: seq<Grant>, g: Grant, userId: string, t: Instant)
    requires g.userId != userId
    ensures ActiveGrantTier(grants + [g], userId, t) == ActiveGrantTier(grants, userId, t)
  {
    assert (grants + [g])[..|grants|] == grants;
  }

  /** Changing other people's grants. */
  lemma GrantsAreHarmless(settings: Settings, db: Db, later: Db, userId: string, t: Instant)
    requires later.rows == db.rows && ActiveGrantTier(later.grants, userId, t) == ActiveGrantTier(db.grants, userId, t)
    ensures ResolveFromDb(settings, later, userId, t) == ResolveFromDb(settings, db, userId, t)
  {
  }

  lemma UnmarkedGrantIsHarmless(settings: Settings, db: Db, catalog: Catalog, w: Write, now: Instant, userId: string, t: Instant)
    requires userId !in Marks(db, catalog, w, now) && (w.Comp? || w.Revoke? || w.LateRevokeOf?)
    ensures ResolveFromDb(settings, Writers.Apply(db, catalog, w, now), userId, t) == ResolveFromDb(settings, db, userId, t)
  {
    hide ResolveFromDb, ActiveGrantTier;
    var later := Writers.Apply(db, catalog, w, now);
    if later.grants != db.grants {
      if w.Comp? {
        AnothersNewGrant(db.grants, later.grants[|db.grants|], userId, t);
      } else {
        AnothersGrant(db.grants, w.id, later.grants[w.id], userId, t);
      }
    }
    GrantsAreHarmless(settings, db, later, userId, t);
  }

  lemma UnmarkedLateContactIsHarmless(settings: Settings, db: Db, catalog: Catalog, w: Write, now: Instant, userId: string, t: Instant)
    requires UniqueRows(db.rows) && userId !in Marks(db, catalog, w, now) && w.LateFirstContact?
    ensures ResolveFromDb(settings, Writers.Apply(db, catalog, w, now), userId, t) == ResolveFromDb(settings, db, userId, t)
  {
    ClaimedIsInHand(db.rows, w.customer, w.userId);
    var (rows, i) := Claimed(db.rows, w.customer, w.userId);
    UnmarkedWriteBackIsHarmless(settings, db, rows, i, Project(catalog, w.answer), None, w.reason, now, userId, t);
  }

  /** What a first contact does not find to have changed in what it read, it does not write either. */
  lemma UnmarkedContactIsHarmless(settings: Settings, db: Db, seen: Row, customer: string, state: MirroredState,
                                  reason: string, now: Instant, userId: string, t: Instant)
    requires UniqueRows(db.rows)
    ensures var r := Contact(db, seen, customer, state, None, reason, now);
            r.Synced? && userId !in r.marks ==>
              ResolveFromDb(settings, r.db, userId, t) == ResolveFromDb(settings, db, userId, t)
  {
    var r := Contact(db, seen, customer, state, None, reason, now);
    if r.Synced? && userId !in r.marks {
      var after := r.db.rows[r.index];
      var rows := db.rows[r.index := db.rows[r.index].(customerId := after.customerId)];
      assert rows[r.index := after] == r.db.rows;
      RewriteIsHarmless(settings, db, rows, r.index, after, r.db, userId, t);
    }
  }

  /** A write that does not mark a user leaves that user's answer as it was, at every instant. */
  lemma UnmarkedWriteIsHarmless(settings: Settings, db: Db, catalog: Catalog, w: Write, now: Instant, userId: string, t: Instant)
    requires UniqueRows(db.rows) && userId !in Marks(db, catalog, w, now)
    ensures ResolveFromDb(settings, Writers.Apply(db, catalog, w, now), userId, t) == ResolveFromDb(settings, db, userId, t)
  {
    match w
    case SyncOf(customer, stripe, event, reason) =>
      UnmarkedSyncIsHarmless(settings, db, catalog, stripe, customer, event, reason, now, userId, t);
    case LateFirstContact(_, _, _, _) => UnmarkedLateContactIsHarmless(settings, db, catalog, w, now, userId, t);
    case OvertakenContact(seen, customer, answer, reason) =>
      UnmarkedContactIsHarmless(settings, db, seen, customer, Project(catalog, answer), reason, now, userId, t);
    case Comp(_, _, _) => UnmarkedGrantIsHarmless(settings, db, catalog, w, now, userId, t);
    case Revoke(_) => UnmarkedGrantIsHarmless(settings, db, catalog, w, now, userId, t);
    case LateRevokeOf(_) => UnmarkedGrantIsHarmless(settings, db, catalog, w, now, userId, t);
    case AppendAudit(_) =>
    case _ => UnmarkedRewriteIsHarmless(settings, db, catalog, w, now, userId, t);
  }

  // ---- the protocol ----

  /** What became of one commit's duty to the key. */
  datatype Fate =
    | NothingToDo           // the write did not mark the user
    | Pending               // committed; the delete is still to come
    | Deleted(step: nat)
    | DeleteFailed
    | MarkDropped           // a plain commit

  /** `read` is the version of the database the value was computed from. */
  datatype Stored = Stored(value: Entitlements, read: nat, readAt: Instant, setAt: Instant, setStep: nat, expiresAt: Instant)

  datatype Reader = Missed | HasRead(value: Entitlements, read: nat, readAt: Instant)

  datatype State = State(
    history: seq<Db>,       // every committed version, the current one last
    fates: seq<Fate>,       // one for each commit: from history[i] to history[i + 1]
    cached: Option<Stored>,
    readers: map<nat, Reader>,
    clock: Instant,
    steps: nat)

  function Start(db: Db, clock: Instant): State {
    State([db], [], None, map[], clock, 0)
  }

  datatype Step =
    | Ticks(to: Instant)
    | Commits(w: Write, drains: bool)
    | Deletes(i: nat)
    | DeleteFails(i: nat)
    | Misses(r: nat)
    | Reads(r: nat)
    | Stores(r: nat, ttlAt: Instant)

  datatype Setup = Setup(settings: Settings, catalog: Catalog, userId: string)

  predicate LiveNow(s: State) {
    s.cached.Some? && s.clock < s.cached.value.expiresAt
  }

  predicate Enabled(s: State, step: Step) {
    && s.history != []
    && match step
       case Ticks(to) => s.clock <= to
       case Commits(_, _) => true
       case Deletes(i) => i < |s.fates| && s.fates[i].Pending?
       case DeleteFails(i) => i < |s.fates| && s.fates[i].Pending?
       case Misses(r) => r !in s.readers && !LiveNow(s)
       case Reads(r) => r in s.readers && s.readers[r].Missed?
       case Stores(r, ttlAt) => r in s.readers && s.readers[r].HasRead? && s.readers[r].readAt <= ttlAt <= s.clock
  }

  function Apply(s: State, setup: Setup, step: Step): State
    requires Enabled(s, step)
  {
    var current := |s.history| - 1;
    var t := s.(steps := s.steps + 1);
    match step
    case Ticks(to) => t.(clock := to)
    case Commits(w, drains) =>
      var db := s.history[current];
      t.(history := s.history + [Writers.Apply(db, setup.catalog, w, s.clock)],
         fates := s.fates + [if setup.userId !in Marks(db, setup.catalog, w, s.clock) then NothingToDo
                             else if drains then Pending else MarkDropped])
    case Deletes(i) => t.(fates := s.fates[i := Deleted(s.steps)], cached := None)
    case DeleteFails(i) => t.(fates := s.fates[i := DeleteFailed])
    case Misses(r) => t.(readers := s.readers[r := Missed])
    case Reads(r) =>
      t.(readers := s.readers[r := HasRead(ResolveFromDb(setup.settings, s.history[current], setup.userId, s.clock),
                                           current, s.clock)])
    case Stores(r, ttlAt) =>
      var p := s.readers[r];
      var ttl := TtlFor(setup.settings, p.value, ttlAt);
      t.(readers := s.readers - {r},
         cached := if ttl > 0 then Some(Stored(p.value, p.read, p.readAt, s.clock, s.steps, s.clock + ttl * SECOND))
                   else s.cached)
  }

  ghost predicate Run(s: State, setup: Setup, steps: seq<Step>, t: State)
    decreases |steps|
  {
    if steps == [] then s == t
    else Enabled(s, steps[0]) && Run(Apply(s, setup, steps[0]), setup, steps[1..], t)
  }

  // ---- the invariant ----

  /** Each commit that owed the key nothing changed nothing. */
  ghost predicate HistoryOk(s: State, setup: Setup) {
    && |s.history| == |s.fates| + 1
    && (forall i :: 0 <= i < |s.history| ==> UniqueRows(s.history[i].rows))
    && (forall i :: 0 <= i < |s.fates| && s.fates[i].NothingToDo? ==> AlwaysSame(setup, s.history[i], s.history[i + 1]))
  }

  ghost predicate AlwaysSame(setup: Setup, a: Db, b: Db) {
    forall t :: Same(setup, a, b, t)
  }

  ghost predicate Same(setup: Setup, a: Db, b: Db, t: Instant) {
    ResolveFromDb(setup.settings, a, setup.userId, t) == ResolveFromDb(setup.settings, b, setup.userId, t)
  }

  ghost predicate ValueFrom(s: State, setup: Setup, value: Entitlements, read: nat, readAt: Instant) {
    && read < |s.history| && readAt <= s.clock
    && value == ResolveFromDb(setup.settings, s.history[read], setup.userId, readAt)
  }

  ghost predicate Inv(s: State, setup: Setup) {
    HistoryOk(s, setup) && EntriesOk(s, setup)
  }

  /** What is read or stored came from a committed version, at an instant that has passed; and what
      is stored was stored after every delete of a commit it may have missed. */
  ghost predicate EntriesOk(s: State, setup: Setup) {
    && (forall r :: r in s.readers && s.readers[r].HasRead? ==>
          ValueFrom(s, setup, s.readers[r].value, s.readers[r].read, s.readers[r].readAt))
    && (forall i :: 0 <= i < |s.fates| && s.fates[i].Deleted? ==> s.fates[i].step < s.steps)
    && (s.cached.Some? ==>
          var e := s.cached.value;
          && ValueFrom(s, setup, e.value, e.read, e.readAt)
          && e.setAt <= s.clock
          && e.expiresAt <= e.setAt + setup.settings.cacheTtl * SECOND
          && forall i :: e.read <= i < |s.fates| && s.fates[i].Deleted? ==> s.fates[i].step < e.setStep)
  }

  lemma StepKeepsHistory(s: State, setup: Setup, step: Step)
    requires Inv(s, setup) && Enabled(s, step)
    ensures HistoryOk(Apply(s, setup, step), setup)
  {
    if step.Commits? {
      var db := s.history[|s.history| - 1];
      var later := Writers.Apply(db, setup.catalog, step.w, s.clock);
      EveryWriteKeepsUnique(db, setup.catalog, step.w, s.clock);
      if setup.userId !in Marks(db, setup.catalog, step.w, s.clock) {
        forall t ensures Same(setup, db, later, t) {
          UnmarkedWriteIsHarmless(setup.settings, db, setup.catalog, step.w, s.clock, setup.userId, t);
        }
        assert AlwaysSame(setup, db, later);
      }
    }
  }

  /** A commit, whatever it wrote: everything read before it came from a version that is still there. */
  lemma CommitKeepsEntries(s: State, setup: Setup, later: Db, fate: Fate)
    requires HistoryOk(s, setup) && EntriesOk(s, setup) && !fate.Deleted?
    ensures EntriesOk(s.(steps := s.steps + 1, history := s.history + [later], fates := s.fates + [fate]), setup)
  {
  }

  lemma StepKeepsEntries(s: State, setup: Setup, step: Step)
    requires Inv(s, setup) && Enabled(s, step) && !step.Commits?
    ensures EntriesOk(Apply(s, setup, step), setup)
  {
  }

  lemma StepKeepsInv(s: State, setup: Setup, step: Step)
    requires Inv(s, setup) && Enabled(s, step)
    ensures Inv(Apply(s, setup, step), setup)
  {
    StepKeepsHistory(s, setup, step);
    if step.Commits? {
      var t := Apply(s, setup, step);
      CommitKeepsEntries(s, setup, t.history[|s.history|], t.fates[|s.fates|]);
    } else {
      StepKeepsEntries(s, setup, step);
    }
  }

  lemma {:induction false} RunKeepsInv(s: State, setup: Setup, steps: seq<Step>, t: State)
    requires Inv(s, setup) && Run(s, setup, steps, t)
    ensures Inv(t, setup)
    decreases |steps|
  {
    if steps != [] {
      StepKeepsInv(s, setup, steps[0]);
      RunKeepsInv(Apply(s, setup, steps[0]), setup, steps[1..], t);
    }
  }

  /** Commits that owed nothing, one after another, leave the answer where it was. */
  lemma {:induction false} NothingChanged(s: State, setup: Setup, from: nat, t: Instant)
    requires HistoryOk(s, setup) && from < |s.history|
    requires forall i :: from <= i < |s.fates| ==> s.fates[i].NothingToDo?
    ensures Same(setup, s.history[from], s.history[|s.history| - 1], t)
    decreases |s.history| - from
  {
    if from < |s.fates| {
      NothingChanged(s, setup, from + 1, t);
      assert AlwaysSame(setup, s.history[from], s.history[from + 1]) && Same(setup, s.history[from], s.history[from + 1], t);
    }
  }

  /** The row and grants a value was computed from answer alike from then until now. */
  ghost predicate TimeStoodStill(s: State, setup: Setup, e: Stored) {
    && e.read < |s.history|
    && var db := s.history[e.read];
       var i := Find(db.rows, ByUser(setup.userId));
       && !HasExpiringGrant(db.grants, setup.userId)
       && !ClosesBetween(setup.settings, if i.Some? then Some(db.rows[i.value]) else None, e.readAt, s.clock)
  }

  /** Something happened to the key after this entry's value was read from the database. */
  ghost predicate Excused(s: State, e: Stored, i: nat) {
    && e.read <= i < |s.fates|
    && (|| s.fates[i].Pending?                                     // a writer is between commit and delete
        || s.fates[i].DeleteFailed?
        || s.fates[i].MarkDropped?
        || (s.fates[i].Deleted? && s.fates[i].step < e.setStep))   // the read and the store straddled it
  }

  /** Cache coherence. In every reachable state, a live entry that is not what the committed database
      answers now has one of four excuses, and is gone within one lifetime of being stored. */
  lemma StaleEntryHasAnExcuse(setup: Setup, db: Db, clock: Instant, steps: seq<Step>, s: State)
    requires UniqueRows(db.rows) && Run(Start(db, clock), setup, steps, s)
    requires LiveNow(s) && s.history != [] && TimeStoodStill(s, setup, s.cached.value)
    ensures s.clock < s.cached.value.setAt + setup.settings.cacheTtl * SECOND
    ensures || s.cached.value.value == ResolveFromDb(setup.settings, s.history[|s.history| - 1], setup.userId, s.clock)
            || exists i :: Excused(s, s.cached.value, i)
  {
    RunKeepsInv(Start(db, clock), setup, steps, s);
    var e := s.cached.value;
    if forall i :: e.read <= i < |s.fates| ==> s.fates[i].NothingToDo? {
      NothingChanged(s, setup, e.read, s.clock);
      var at := s.history[e.read];
      var i := Find(at.rows, ByUser(setup.userId));
      var row := if i.Some? then Some(at.rows[i.value]) else None;
      LastingGrantsLast(at.grants, setup.userId, e.readAt, s.clock);
      ResolveAgreesIff(setup.settings, setup.userId, row, at.grants, e.readAt, s.clock);
      TierMovesIff(setup.settings, row, e.readAt, s.clock);
    } else {
      var i :| e.read <= i < |s.fates| && !s.fates[i].NothingToDo?;
      assert Excused(s, e, i);
    }
  }

  // ---- the last excuse is real ----

  /** A reader stores an answer read before a commit, after that commit's delete. */
  function Straddled(db: Db, later: Db, answer: Entitlements, clock: Instant, ttl: nat): State {
    State([db, later], [Deleted(3)], Some(Stored(answer, 0, clock, clock, 4, clock + ttl * SECOND)), map[], clock, 5)
  }

  lemma One(s: State, setup: Setup, step: Step)
    requires Enabled(s, step)
    ensures Run(s, setup, [step], Apply(s, setup, step))
  {
    assert [step][1..] == [];
  }

  lemma {:induction false} RunOn(s: State, setup: Setup, steps: seq<Step>, mid: State, more: seq<Step>, t: State)
    requires Run(s, setup, steps, mid) && Run(mid, setup, more, t)
    ensures Run(s, setup, steps + more, t)
    decreases |steps|
  {
    if steps == [] {
      assert steps + more == more;
    } else {
      RunOn(Apply(s, setup, steps[0]), setup, steps[1..], mid, more, t);
      assert (steps + more)[1..] == steps[1..] + more;
    }
  }

  lemma ReaderReads(db: Db, setup: Setup, clock: Instant) returns (steps: seq<Step>)
    ensures var answer := ResolveFromDb(setup.settings, db, setup.userId, clock);
            Run(Start(db, clock), setup, steps, State([db], [], None, map[1 := HasRead(answer, 0, clock)], clock, 2))
  {
    var s0, s1 := Start(db, clock), State([db], [], None, map[1 := Missed], clock, 1);
    One(s0, setup, Misses(1));
    One(s1, setup, Reads(1));
    steps := [Misses(1)] + [Reads(1)];
    RunOn(s0, setup, [Misses(1)], s1, [Reads(1)], Apply(s1, setup, Reads(1)));
  }

  lemma WriterCommits(s: State, setup: Setup, w: Write, later: Db)
    requires s.history != [] && s.fates == []
    requires later == Writers.Apply(s.history[|s.history| - 1], setup.catalog, w, s.clock)
    requires setup.userId in Marks(s.history[|s.history| - 1], setup.catalog, w, s.clock)
    ensures Run(s, setup, [Commits(w, true)], s.(history := s.history + [later], fates := [Pending], steps := s.steps + 1))
  {
    One(s, setup, Commits(w, true));
  }

  lemma WriterDeletesReaderStores(db: Db, later: Db, setup: Setup, answer: Entitlements, clock: Instant)
    requires TtlFor(setup.settings, answer, clock) > 0
    ensures Run(State([db, later], [Pending], None, map[1 := HasRead(answer, 0, clock)], clock, 3), setup,
                [Deletes(0)] + [Stores(1, clock)],
                Straddled(db, later, answer, clock, TtlFor(setup.settings, answer, clock)))
  {
    var s3 := State([db, later], [Pending], None, map[1 := HasRead(answer, 0, clock)], clock, 3);
    var s4 := s3.(fates := [Deleted(3)], steps := 4);
    One(s3, setup, Deletes(0));
    One(s4, setup, Stores(1, clock));
    RunOn(s3, setup, [Deletes(0)], s4, [Stores(1, clock)], Apply(s4, setup, Stores(1, clock)));
  }

  /** Whatever write marks the user and changes the answer, a reader that read before its commit and
      stores after its delete leaves the old answer live, although the mark was drained and the delete
      succeeded. */
  lemma AStraddlingReaderLeavesAStaleEntry(setup: Setup, db: Db, w: Write, clock: Instant, later: Db)
    returns (steps: seq<Step>, s: State)
    requires later == Writers.Apply(db, setup.catalog, w, clock) && setup.userId in Marks(db, setup.catalog, w, clock)
    requires var answer := ResolveFromDb(setup.settings, db, setup.userId, clock);
             && TtlFor(setup.settings, answer, clock) > 0
             && answer != ResolveFromDb(setup.settings, later, setup.userId, clock)
    ensures Run(Start(db, clock), setup, steps, s) && LiveNow(s) && s.history == [db, later]
    ensures |s.fates| == 1 && s.fates[0].Deleted?
    ensures s.cached.value.value != ResolveFromDb(setup.settings, later, setup.userId, s.clock)
  {
    var answer := ResolveFromDb(setup.settings, db, setup.userId, clock);
    var before := ReaderReads(db, setup, clock);
    var after := [Deletes(0)] + [Stores(1, clock)];
    var s2 := State([db], [], None, map[1 := HasRead(answer, 0, clock)], clock, 2);
    var s3 := State([db, later], [Pending], None, map[1 := HasRead(answer, 0, clock)], clock, 3);
    WriterCommits(s2, setup, w, later);
    assert [db] + [later] == [db, later];
    RunOn(Start(db, clock), setup, before, s2, [Commits(w, true)], s3);
    WriterDeletesReaderStores(db, later, setup, answer, clock);
    s := Straddled(db, later, answer, clock, TtlFor(setup.settings, answer, clock));
    RunOn(Start(db, clock), setup, before + [Commits(w, true)], s3, after, s);
    steps := before + [Commits(w, true)] + after;
  }

  // ---- one read alone ----

  /** The protocol's key reads as the cache's does from now on, and it holds what the tables hold. */
  ghost predicate Pictures(s: State, data: Data, db: Db, userId: string) {
    && s.history != [] && s.history[|s.history| - 1] == db
    && forall t :: s.clock <= t ==>
         Live(data, EntitlementKey(userId), t)
         == if s.cached.Some? && t < s.cached.value.expiresAt then Some(Payload(s.cached.value.value)) else None
  }

  /** The protocol's steps, taken by one reader with nobody in between, are the read path. A hit is no step at
      all; a miss, a read and a store leave the key as the read path leaves it, with the value it answers. */
  lemma OneReadIsTheReadPath(s: State, setup: Setup, data: Data, db: Db, r: nat) returns (steps: seq<Step>, t: State)
    requires Pictures(s, data, db, setup.userId) && r !in s.readers
    ensures Run(s, setup, steps, t) && t.readers == s.readers && t.clock == s.clock && t.history == s.history
    ensures var (answer, after) := ReadThrough(setup.settings, data, db, setup.userId, s.clock);
            && Pictures(t, after, db, setup.userId)
            && (LiveNow(s) ==> steps == [] && answer == s.cached.value.value)
            && (!LiveNow(s) ==> answer == ResolveFromDb(setup.settings, db, setup.userId, s.clock))
  {
    hide ResolveFromDb, Marks, Writers.Apply, TtlFor;
    steps, t := [], s;
    assert Live(data, EntitlementKey(setup.userId), s.clock).Some? <==> LiveNow(s);
    if !LiveNow(s) {
      var s1 := Apply(s, setup, Misses(r));
      var s2 := Apply(s1, setup, Reads(r));
      t := Apply(s2, setup, Stores(r, s.clock));
      RunOn(s, setup, [Misses(r)], s1, [Reads(r)], s2);
      RunOn(s, setup, [Misses(r)] + [Reads(r)], s2, [Stores(r, s.clock)], t);
      steps := [Misses(r)] + [Reads(r)] + [Stores(r, s.clock)];
      assert t.readers == s.readers;
    }
  }
}
