/** The read path: app/services/entitlements.py and app/policy.py.

    `Resolve` is the slow, time-dependent answer. `ResolveEntitlements` puts a cache in front of it.
    The theorems say when the cached answer is the slow one.
 */
module EntitlementReads {
  import opened Models
  import opened Cache
  import opened Subscriptions

  /** Configuration: how long past_due keeps access, and how long an answer is cached. */
  datatype Settings = Settings(grace: int, cacheTtl: int)

  const STALE_TTL: int := 24 * 60 * 60

  // ---- policy ----

  function GraceEndsAt(settings: Settings, row: Row): Option<Instant> {
    if !row.mirror.status.PastDue? || row.pastDueSince.None? then None
    else Some(row.pastDueSince.value + settings.grace)
  }

  predicate GraceExpired(settings: Settings, row: Row, now: Instant) {
    GraceEndsAt(settings, row).Some? && GraceEndsAt(settings, row).value <= now
  }

  // ---- resolution ----

  predicate ActiveGrant(grant: Grant, userId: string, now: Instant) {
    grant.userId == userId && grant.revokedAt.None? && (grant.expiresAt.None? || now < grant.expiresAt.value)
  }

  /** The best tier a grant gives this user at this instant. */
  function ActiveGrantTier(grants: seq<Grant>, userId: string, now: Instant): Option<Tier> {
    if grants == [] then None
    else
      var g, best := grants[|grants| - 1], ActiveGrantTier(grants[..|grants| - 1], userId, now);
      if !ActiveGrant(g, userId, now) then best
      else if best.None? || Rank(g.tier) > Rank(best.value) then Some(g.tier)
      else best
  }

  function SubscriptionTier(settings: Settings, row: Option<Row>, now: Instant): Tier {
    if row.Some? && row.value.mirror.status.GrantsAccess() && !GraceExpired(settings, row.value, now)
    then row.value.mirror.tier else Tier.Free
  }

  /** What the user may do, from their row and the table of grants. */
  function Resolve(settings: Settings, userId: string, row: Option<Row>, grants: seq<Grant>, now: Instant): Entitlements {
    var paid := SubscriptionTier(settings, row, now);
    var granted := ActiveGrantTier(grants, userId, now);
    var m := if row.Some? then row.value.mirror else NO_SUBSCRIPTION;
    Entitlements(
      userId,
      if granted.None? then paid else HigherTier(paid, granted.value),
      m.status,
      if granted.Some? && Rank(granted.value) > Rank(paid) then FromGrant
      else if paid != Tier.Free then FromSubscription
      else FromDefault,
      m.periodStart, m.periodEnd, m.cancelAtPeriodEnd,
      if row.Some? then GraceEndsAt(settings, row.value) else None)
  }

  function ResolveFromDb(settings: Settings, db: Db, userId: string, now: Instant): Entitlements {
    var i := Find(db.rows, ByUser(userId));
    Resolve(settings, userId, if i.Some? then Some(db.rows[i.value]) else None, db.grants, now)
  }

  /** For how many seconds an answer may be cached; zero means not at all. */
  function TtlFor(settings: Settings, e: Entitlements, now: Instant): int {
    match e.graceEndsAt
    case None => settings.cacheTtl
    case Some(ends) =>
      var remaining := ends - now;
      if remaining <= 0 then settings.cacheTtl
      else if remaining < SECOND then 0
      else if settings.cacheTtl <= remaining / SECOND then settings.cacheTtl
      else remaining / SECOND
  }

  /** The answer a request gets and the entries it leaves, when the database can be read. */
  function ReadThrough(settings: Settings, data: Data, db: Db, userId: string, now: Instant): (Entitlements, Data) {
    match Live(data, EntitlementKey(userId), now)
    case Some(Payload(e)) => (e, data)
    case _ =>
      var e := ResolveFromDb(settings, db, userId, now);
      var d := Evicted(data, EntitlementKey(userId), now);
      var ttl := TtlFor(settings, e, now);
      var kept := if ttl > 0 then d[EntitlementKey(userId) := Entry(Payload(e), now + ttl * SECOND)] else d;
      (e, kept[StaleKey(userId) := Entry(Payload(e), now + STALE_TTL * SECOND)])
  }

  /** The answer a request gets when the database cannot be read: the cached one, or else the stale copy. */
  function Outage(data: Data, userId: string, now: Instant): Option<Entitlements> {
    match Live(data, EntitlementKey(userId), now)
    case Some(Payload(e)) => Some(e)
    case _ =>
      match Live(data, StaleKey(userId), now)
      case Some(Payload(e)) => Some(e)
      case _ => None
  }

  ghost predicate HoldsPayloads(data: Data) {
    forall key :: key in data && !key.IsCounter() ==> data[key].value.Payload?
  }

  /** One read. An unreachable cache counts as a miss and is never written to; an unreachable
      database is answered from the stale copy, or not at all. */
  method ResolveEntitlements(settings: Settings, cache: InMemoryBackend, cacheUp: bool, db: Db, dbUp: bool,
                             userId: string, now: Instant)
    returns (answer: Option<Entitlements>)
    requires cache.Valid() && HoldsPayloads(cache.data)
    modifies cache
    ensures cache.Valid() && HoldsPayloads(cache.data)
    ensures cacheUp && dbUp ==>
              (answer, cache.data) == (Some(ReadThrough(settings, old(cache.data), db, userId, now).0),
                                       ReadThrough(settings, old(cache.data), db, userId, now).1)
    ensures !cacheUp ==> cache.data == old(cache.data)
                         && answer == if dbUp then Some(ResolveFromDb(settings, db, userId, now)) else None
    ensures cacheUp && !dbUp ==> answer == Outage(old(cache.data), userId, now)
    ensures cacheUp && !dbUp ==>
              cache.data == if Live(old(cache.data), EntitlementKey(userId), now).Some? then old(cache.data)
                            else Evicted(Evicted(old(cache.data), EntitlementKey(userId), now), StaleKey(userId), now)
  {
    if cacheUp {
      var cached := cache.LiveValue(EntitlementKey(userId), now);
      if cached.Some? {
        return Some(cached.value.entitlements);
      }
    }
    if !dbUp {
      if cacheUp {
        var stale := cache.LiveValue(StaleKey(userId), now);
        if stale.Some? {
          return Some(stale.value.entitlements);
        }
      }
      return None;
    }
    var data := ResolveFromDb(settings, db, userId, now);
    var ttl := TtlFor(settings, data, now);
    if cacheUp {
      if ttl > 0 {
        cache.Set(EntitlementKey(userId), Payload(data), ttl, now);
      }
      cache.Set(StaleKey(userId), Payload(data), STALE_TTL, now);
    }
    return Some(data);
  }

  // ---- what the answer says ----

  /** The columns of the answer are the row's; with no row they are empty. The end of the grace window is
      told of a past_due row alone. */
  lemma AnswerShowsTheRow(settings: Settings, userId: string, row: Option<Row>, grants: seq<Grant>, now: Instant)
    ensures var e := Resolve(settings, userId, row, grants, now);
            && e.userId == userId
            && (row.None? ==> e.status.NoSubscription? && e.periodStart.None? && e.periodEnd.None?
                              && !e.cancelAtPeriodEnd && e.graceEndsAt.None?)
            && (row.Some? ==>
                  var m := row.value.mirror;
                  && e.status == m.status && e.periodStart == m.periodStart && e.periodEnd == m.periodEnd
                  && e.cancelAtPeriodEnd == m.cancelAtPeriodEnd
                  && (e.graceEndsAt.Some? <==> m.status == PastDue && row.value.pastDueSince.Some?)
                  && (e.graceEndsAt.Some? ==> e.graceEndsAt.value == row.value.pastDueSince.value + settings.grace))
  {
  }

  /** What a row pays for: its tier while it is trialing or active, and while it is past_due until the grace
      period is over; free otherwise. */
  lemma RowPaysExactly(settings: Settings, row: Row, now: Instant)
    ensures var tier := SubscriptionTier(settings, Some(row), now);
            && (row.mirror.status in {Trialing, Active} ==> tier == row.mirror.tier)
            && (row.mirror.status == PastDue ==>
                  tier == if row.pastDueSince.Some? && now >= row.pastDueSince.value + settings.grace
                          then Tier.Free else row.mirror.tier)
            && (row.mirror.status in {NoSubscription, Incomplete, Paused} ==> tier == Tier.Free)
    ensures SubscriptionTier(settings, None, now) == Tier.Free
  {
  }

  /** The tier is the higher of what the row pays for and what a grant gives, and the source says which of
      the two it comes from: a grant only when it gives strictly more. */
  lemma AnswerIsTheHigher(settings: Settings, userId: string, row: Option<Row>, grants: seq<Grant>, now: Instant)
    ensures var e := Resolve(settings, userId, row, grants, now);
            var paid, granted := SubscriptionTier(settings, row, now), ActiveGrantTier(grants, userId, now);
            && (e.tier == paid || Some(e.tier) == granted)
            && Rank(paid) <= Rank(e.tier) && (granted.Some? ==> Rank(granted.value) <= Rank(e.tier))
            && (e.source.FromGrant? <==> e.tier != paid)
            && (e.source.FromSubscription? <==> e.tier == paid != Tier.Free)
            && (e.source.FromDefault? <==> e.tier == paid == Tier.Free)
  {
  }

  /** Answers are cached for the configured time, but inside a grace window never past its end, and for as
      many whole seconds as that allows. */
  lemma TtlExactly(settings: Settings, e: Entitlements, now: Instant)
    requires settings.cacheTtl >= 0
    ensures var ttl := TtlFor(settings, e, now);
            if e.graceEndsAt.None? || e.graceEndsAt.value <= now then ttl == settings.cacheTtl
            else
              && 0 <= ttl <= settings.cacheTtl && now + ttl * 1_000_000 <= e.graceEndsAt.value
              && (ttl < settings.cacheTtl ==> e.graceEndsAt.value < now + (ttl + 1) * 1_000_000)
  {
  }

  // ---- grants ----

  lemma WithOneMore(grants: seq<Grant>, g: Grant, userId: string, t: Instant)
    ensures ActiveGrantTier(grants + [g], userId, t)
            == var best := ActiveGrantTier(grants, userId, t);
               if !ActiveGrant(g, userId, t) then best
               else if best.None? then Some(g.tier) else Some(HigherTier(best.value, g.tier))
  {
    assert (grants + [g])[..|grants|] == grants;
  }

  /** A grant raises its user to its tier, until it expires, and nobody else ever. */
  lemma GrantGivesItsTier(settings: Settings, row: Option<Row>, grants: seq<Grant>, g: Grant, userId: string, t: Instant)
    requires g.revokedAt.None?
    ensures var before := Resolve(settings, userId, row, grants, t).tier;
            Resolve(settings, userId, row, grants + [g], t).tier
            == if g.userId == userId && (g.expiresAt.None? || t < g.expiresAt.value) then HigherTier(before, g.tier) else before
  {
    WithOneMore(grants, g, userId, t);
  }

  /** A revoked grant gives what no grant gives, at any instant. */
  lemma {:induction false} RevokedGivesNothing(grants: seq<Grant>, id: nat, at: Instant, userId: string, t: Instant)
    requires id < |grants|
    ensures ActiveGrantTier(grants[id := grants[id].(revokedAt := Some(at))], userId, t)
            == ActiveGrantTier(grants[..id] + grants[id + 1..], userId, t)
  {
    var init, last := grants[..|grants| - 1], grants[|grants| - 1];
    var revoked := grants[id := grants[id].(revokedAt := Some(at))];
    if id == |grants| - 1 {
      assert revoked[..|grants| - 1] == init == grants[..id] + grants[id + 1..];
    } else {
      RevokedGivesNothing(init, id, at, userId, t);
      assert revoked == init[id := init[id].(revokedAt := Some(at))] + [last];
      assert grants[..id] + grants[id + 1..] == (init[..id] + init[id + 1..]) + [last];
      WithOneMore(init[id := init[id].(revokedAt := Some(at))], last, userId, t);
      WithOneMore(init[..id] + init[id + 1..], last, userId, t);
    }
  }

  // ---- how the answer depends on time ----

  /** Time only ever takes grants away. */
  lemma {:induction false} GrantsOnlyExpire(grants: seq<Grant>, userId: string, t: Instant, later: Instant)
    requires t <= later
    ensures var a, b := ActiveGrantTier(grants, userId, t), ActiveGrantTier(grants, userId, later);
            (b.Some? ==> a.Some?) && (a.Some? && b.Some? ==> Rank(b.value) <= Rank(a.value))
  {
    if grants != [] { GrantsOnlyExpire(grants[..|grants| - 1], userId, t, later); }
  }

  /** A grant of this user that time will end. */
  ghost predicate HasExpiringGrant(grants: seq<Grant>, userId: string) {
    exists i :: 0 <= i < |grants| && grants[i].userId == userId
                && grants[i].revokedAt.None? && grants[i].expiresAt.Some?
  }

  lemma {:induction false} LastingGrantsLast(grants: seq<Grant>, userId: string, t: Instant, later: Instant)
    requires !HasExpiringGrant(grants, userId)
    ensures ActiveGrantTier(grants, userId, t) == ActiveGrantTier(grants, userId, later)
  {
    if grants != [] {
      var init := grants[..|grants| - 1];
      assert forall i :: 0 <= i < |init| ==> init[i] == grants[i];
      LastingGrantsLast(init, userId, t, later);
    }
  }

  /** Two resolutions of one row agree exactly when the grants give the same, or give no more than
      the subscription does, and the grace window does not close between them to any effect. */
  lemma ResolveAgreesIff(settings: Settings, userId: string, row: Option<Row>, grants: seq<Grant>, t: Instant, later: Instant)
    requires t <= later
    ensures var p, q := SubscriptionTier(settings, row, t), SubscriptionTier(settings, row, later);
            var a, b := ActiveGrantTier(grants, userId, t), ActiveGrantTier(grants, userId, later);
            Resolve(settings, userId, row, grants, t) == Resolve(settings, userId, row, grants, later)
            <==> if a.Some? && Rank(a.value) > Rank(p) then a == b else p == q
  {
    GrantsOnlyExpire(grants, userId, t, later);
  }

  /** The instant a past_due row stops paying for a tier, if it pays for one at all. */
  ghost predicate ClosesBetween(settings: Settings, row: Option<Row>, t: Instant, later: Instant) {
    && row.Some? && row.value.mirror.tier != Tier.Free
    && GraceEndsAt(settings, row.value).Some? && t < GraceEndsAt(settings, row.value).value <= later
  }

  /** A row's tier moves with the clock only when its grace window closes. */
  lemma TierMovesIff(settings: Settings, row: Option<Row>, t: Instant, later: Instant)
    requires t <= later
    ensures SubscriptionTier(settings, row, t) == SubscriptionTier(settings, row, later)
            <==> !ClosesBetween(settings, row, t, later)
  {
  }

  /** The cap works: an answer cached at the instant it was computed never outlives the window. */
  lemma CapStopsAtTheBoundary(settings: Settings, e: Entitlements, now: Instant, later: Instant)
    requires e.graceEndsAt.Some? && now < e.graceEndsAt.value
    requires later < now + TtlFor(settings, e, now) * SECOND
    ensures later < e.graceEndsAt.value
  {
  }

  /** A hit at any later instant of the entry's life, with nothing written since: it is what the
      database would answer then, unless a grant that decided it has run out. */
  lemma CachedHitExactly(settings: Settings, userId: string, row: Option<Row>, grants: seq<Grant>, stored: Instant, hit: Instant)
    requires stored <= hit
    requires var e := Resolve(settings, userId, row, grants, stored);
             hit < stored + TtlFor(settings, e, stored) * SECOND
    ensures Resolve(settings, userId, row, grants, stored) == Resolve(settings, userId, row, grants, hit)
            <==> var a := ActiveGrantTier(grants, userId, stored);
                 a.Some? && Rank(a.value) > Rank(SubscriptionTier(settings, row, stored))
                 ==> ActiveGrantTier(grants, userId, hit) == a
  {
    ResolveAgreesIff(settings, userId, row, grants, stored, hit);
    TierMovesIff(settings, row, stored, hit);
    var e := Resolve(settings, userId, row, grants, stored);
    if ClosesBetween(settings, row, stored, hit) {
      CapStopsAtTheBoundary(settings, e, stored, hit);
    }
  }

  /** And a grant can run out first: when the one that decided an answer expires within the entry's life,
      a hit at that instant still has the grant's tier, and the database no longer does. */
  lemma AnEntryOutlivesItsGrant(settings: Settings, grant: Grant, stored: Instant, expiry: Instant)
    requires stored < expiry < stored + settings.cacheTtl * SECOND
    requires grant.expiresAt == Some(expiry) && grant.revokedAt.None? && grant.tier != Tier.Free
    ensures var e := Resolve(settings, grant.userId, None, [grant], stored);
            && expiry < stored + TtlFor(settings, e, stored) * SECOND
            && e.tier == grant.tier && Resolve(settings, grant.userId, None, [grant], expiry).tier == Tier.Free
  {
    assert [grant][..0] == [];
    assert ActiveGrantTier([grant], grant.userId, stored) == Some(grant.tier);
    assert ActiveGrantTier([grant], grant.userId, expiry) == None;
  }

  /** Every live entry of this user says what the database would say at any instant it lives to. */
  ghost predicate CacheTells(settings: Settings, data: Data, db: Db, userId: string, now: Instant) {
    forall t :: now <= t && Live(data, EntitlementKey(userId), t).Some?
                ==> Live(data, EntitlementKey(userId), t) == Some(Payload(ResolveFromDb(settings, db, userId, t)))
  }

  /** One read keeps the cache truthful and returns the truth. */
  lemma ReadKeepsCacheTruthful(settings: Settings, data: Data, db: Db, userId: string, now: Instant)
    requires !HasExpiringGrant(db.grants, userId)
    requires CacheTells(settings, data, db, userId, now)
    ensures var (e, d) := ReadThrough(settings, data, db, userId, now);
            e == ResolveFromDb(settings, db, userId, now) && CacheTells(settings, d, db, userId, now)
  {
    var (e, d) := ReadThrough(settings, data, db, userId, now);
    var key := EntitlementKey(userId);
    if Live(data, key, now).None? {
      var i := Find(db.rows, ByUser(userId));
      var row := if i.Some? then Some(db.rows[i.value]) else None;
      forall t | now <= t && Live(d, key, t).Some?
        ensures Live(d, key, t) == Some(Payload(ResolveFromDb(settings, db, userId, t)))
      {
        LastingGrantsLast(db.grants, userId, now, t);
        CachedHitExactly(settings, userId, row, db.grants, now, t);
      }
    }
  }

  /** The answers of reads at these instants, one after another, through the cache. */
  function Answers(settings: Settings, data: Data, db: Db, userId: string, at: seq<Instant>): seq<Entitlements>
    decreases |at|
  {
    if at == [] then []
    else
      var (e, d) := ReadThrough(settings, data, db, userId, at[0]);
      [e] + Answers(settings, d, db, userId, at[1..])
  }

  /** Reading through the cache refines reading the database: over any run of reads with no write
      between them, across the closing of the grace window, every answer is the direct one. */
  lemma {:induction false} CachedReadRefinesDirectRead(settings: Settings, data: Data, db: Db, userId: string, at: seq<Instant>)
    requires !HasExpiringGrant(db.grants, userId)
    requires forall i, j :: 0 <= i < j < |at| ==> at[i] <= at[j]
    requires at != [] ==> CacheTells(settings, data, db, userId, at[0])
    ensures |Answers(settings, data, db, userId, at)| == |at|
    ensures forall k :: 0 <= k < |at| ==>
              Answers(settings, data, db, userId, at)[k] == ResolveFromDb(settings, db, userId, at[k])
    decreases |at|
  {
    if at != [] {
      ReadKeepsCacheTruthful(settings, data, db, userId, at[0]);
      var d := ReadThrough(settings, data, db, userId, at[0]).1;
      assert at[1..] != [] ==> at[0] <= at[1];
      CachedReadRefinesDirectRead(settings, d, db, userId, at[1..]);
    }
  }

  // ---- while the database is out ----

  /** What happens to one user's entries: a read that finds the database up, or a writer's delete. */
  datatype Use = ReadFrom(db: Db) | Dropped

  /** The entries after these uses, from an empty cache. */
  function CacheAfter(settings: Settings, userId: string, us: seq<(Use, Instant)>): Data {
    if us == [] then map[]
    else
      var before, last := CacheAfter(settings, userId, us[..|us| - 1]), us[|us| - 1];
      match last.0
      case ReadFrom(db) => ReadThrough(settings, before, db, userId, last.1).1
      case Dropped => before - {EntitlementKey(userId)}
  }

  /** What the last read answered, and when that was resolved. */
  function LastAnswer(settings: Settings, userId: string, us: seq<(Use, Instant)>): Option<(Entitlements, Instant)> {
    if us == [] then None
    else
      var before, last := CacheAfter(settings, userId, us[..|us| - 1]), us[|us| - 1];
      match last.0
      case Dropped => LastAnswer(settings, userId, us[..|us| - 1])
      case ReadFrom(db) =>
        if Live(before, EntitlementKey(userId), last.1).Some? then LastAnswer(settings, userId, us[..|us| - 1])
        else Some((ResolveFromDb(settings, db, userId, last.1), last.1))
  }

  ghost predicate Remembers(settings: Settings, data: Data, userId: string, last: Option<(Entitlements, Instant)>) {
    match last
    case None => EntitlementKey(userId) !in data && StaleKey(userId) !in data
    case Some((e, at)) =>
      && StaleKey(userId) in data && data[StaleKey(userId)] == Entry(Payload(e), at + 86_400 * 1_000_000)
      && (EntitlementKey(userId) in data ==>
            data[EntitlementKey(userId)].value == Payload(e)
            && data[EntitlementKey(userId)].expiresAt <= at + settings.cacheTtl * SECOND)
  }

  lemma {:induction false} CacheRemembers(settings: Settings, userId: string, us: seq<(Use, Instant)>)
    ensures Remembers(settings, CacheAfter(settings, userId, us), userId, LastAnswer(settings, userId, us))
    ensures us != [] && us[|us| - 1].0.ReadFrom? ==>
              var last := us[|us| - 1];
              var answer := ReadThrough(settings, CacheAfter(settings, userId, us[..|us| - 1]), last.0.db, userId, last.1).0;
              LastAnswer(settings, userId, us).Some? && LastAnswer(settings, userId, us).value.0 == answer
  {
    hide ResolveFromDb;
    if us != [] { CacheRemembers(settings, userId, us[..|us| - 1]); }
  }

  /** Through an outage of the database a user goes on getting what the last read answered, whatever was
      written or dropped since, for exactly one day from when that was resolved. */
  lemma OutageServesTheLastAnswer(settings: Settings, userId: string, us: seq<(Use, Instant)>, t: Instant)
    requires settings.cacheTtl <= 86_400
    ensures Outage(CacheAfter(settings, userId, us), userId, t)
            == match LastAnswer(settings, userId, us)
               case None => None
               case Some((e, at)) => if t < at + 86_400 * 1_000_000 then Some(e) else None
  {
    CacheRemembers(settings, userId, us);
  }

  // ---- the three clock reads of one request ----

  /** Resolved at `t0`, given a lifetime at `t1`, stored at `t2`: the entry is right for its whole
      life exactly when it is gone before the window closes, or the closing changes nothing. */
  lemma LateClockReadsExactly(settings: Settings, userId: string, row: Option<Row>, grants: seq<Grant>,
                              t0: Instant, t1: Instant, t2: Instant)
    requires t0 <= t1 <= t2 && settings.cacheTtl >= 0
    requires !HasExpiringGrant(grants, userId)
    ensures var e := Resolve(settings, userId, row, grants, t0);
            var ttl := TtlFor(settings, e, t1);
            var granted := ActiveGrantTier(grants, userId, t0);
            (forall hit :: t2 <= hit < t2 + ttl * SECOND ==> e == Resolve(settings, userId, row, grants, hit))
            <==>
            || ttl == 0
            || (granted.Some? && Rank(granted.value) > Rank(SubscriptionTier(settings, row, t0)))
            || !ClosesBetween(settings, row, t0, t2 + ttl * SECOND - 1)
  {
    var e := Resolve(settings, userId, row, grants, t0);
    var ttl := TtlFor(settings, e, t1);
    forall hit | t2 <= hit < t2 + ttl * SECOND
      ensures e == Resolve(settings, userId, row, grants, hit) <==>
              var granted := ActiveGrantTier(grants, userId, t0);
              (granted.Some? && Rank(granted.value) > Rank(SubscriptionTier(settings, row, t0)))
              || !ClosesBetween(settings, row, t0, hit)
    {
      LastingGrantsLast(grants, userId, t0, hit);
      ResolveAgreesIff(settings, userId, row, grants, t0, hit);
      TierMovesIff(settings, row, t0, hit);
    }
    if ttl > 0 {
      assert t2 <= t2 + ttl * SECOND - 1 < t2 + ttl * SECOND;
    }
  }

  /** A read that straddles the boundary caches paid access for a whole further lifetime: resolved
      one microsecond before the window closed, given its lifetime at the closing instant. */
  lemma LateClockReadOutlivesTheWindow()
    ensures var settings := Settings(7 * DAY, 60);
            var row := Row("u", Some("c"), NO_SUBSCRIPTION.(tier := Pro, status := PastDue, subscriptionId := Some("s")),
                           Some(0), None);
            var e := Resolve(settings, "u", Some(row), [], 7 * DAY - 1);
            && TtlFor(settings, e, 7 * DAY) == 60
            && e.tier == Pro
            && Resolve(settings, "u", Some(row), [], 7 * DAY + 59 * SECOND).tier == Tier.Free
  {
  }

  // ---- syncs that mark nobody ----

  /** Equal fingerprints resolve alike at every instant and for every set of grants; and a row that
      still has a new row's fingerprint resolves like no row at all. */
  lemma EqualFingerprintsResolveAlike(settings: Settings, a: Row, b: Row, grants: seq<Grant>, now: Instant)
    requires FingerprintOf(a) == FingerprintOf(b) && a.userId == b.userId
    ensures Resolve(settings, a.userId, Some(a), grants, now) == Resolve(settings, a.userId, Some(b), grants, now)
    ensures FingerprintOf(b) == FingerprintOf(FreshRow(a.userId)) ==>
              Resolve(settings, a.userId, Some(a), grants, now) == Resolve(settings, a.userId, None, grants, now)
  {
  }

  /** A lookup by user after the row in hand was rewritten: it is that row, or the one it was. */
  lemma FindUserAfterWrite(before: seq<Row>, rows: seq<Row>, i: nat, after: Row, userId: string)
    requires InHand(before, rows, i) && rows[i].userId == after.userId
    requires UniqueRows(before) && UniqueRows(rows[i := after])
    ensures var a, b := Find(before, ByUser(userId)), Find(rows[i := after], ByUser(userId));
            if after.userId == userId then b == Some(i) && a == if i < |before| then Some(i) else None
            else (a.Some? <==> b.Some?) && (a.Some? ==> before[a.value] == rows[i := after][b.value])
  {
    var key := ByUser(userId);
    var later := rows[i := after];
    var a, b := Find(before, key), Find(later, key);
    if after.userId == userId {
      FindIs(later, key, i);
      if i < |before| {
        FindIs(before, key, i);
      } else {
        assert forall j :: 0 <= j < |before| ==> later[j] == before[j] && !Conflict(later[j], later[i]);
      }
    } else if a.Some? {
      assert later[a.value] == before[a.value];
      FindIs(later, key, a.value);
    }
  }

  /** Rewriting the row in hand changes nobody's answer but its user's, and not theirs either when the
      fingerprint stays. */
  lemma RewriteIsHarmless(settings: Settings, db: Db, rows: seq<Row>, i: nat, after: Row, later: Db, userId: string, t: Instant)
    requires InHand(db.rows, rows, i) && rows[i].userId == after.userId
    requires FingerprintOf(rows[i]) == FingerprintOf(after) || userId != after.userId
    requires UniqueRows(db.rows) && UniqueRows(rows[i := after])
    requires later.rows == rows[i := after] && later.grants == db.grants
    ensures ResolveFromDb(settings, later, userId, t) == ResolveFromDb(settings, db, userId, t)
  {
    FindUserAfterWrite(db.rows, rows, i, after, userId);
    if userId == after.userId {
      EqualFingerprintsResolveAlike(settings, after, rows[i], db.grants, t);
      if i < |db.rows| { EqualFingerprintsResolveAlike(settings, after, db.rows[i], db.grants, t); }
    }
  }

  lemma UnmarkedWriteBackIsHarmless(settings: Settings, db: Db, rows: seq<Row>, i: nat, state: MirroredState,
                                    event: Option<string>, reason: string, now: Instant, userId: string, t: Instant)
    requires UniqueRows(db.rows) && InHand(db.rows, rows, i)
    ensures var r := WriteBack(db, rows, i, state, event, reason, now);
            r.Synced? && userId !in r.marks ==>
              ResolveFromDb(settings, r.db, userId, t) == ResolveFromDb(settings, db, userId, t)
  {
    var r := WriteBack(db, rows, i, state, event, reason, now);
    if r.Synced? && userId !in r.marks {
      RewriteIsHarmless(settings, db, rows, i, Written(rows[i], state, now), r.db, userId, t);
    }
  }

  /** A sync that marks nobody changes nobody's answer, whichever way it found its row. */
  lemma UnmarkedSyncIsHarmless(settings: Settings, db: Db, catalog: Catalog, stripe: Stripe, customer: string,
                               event: Option<string>, reason: string, now: Instant, userId: string, t: Instant)
    requires UniqueRows(db.rows)
    ensures var r := Sync(db, catalog, stripe, customer, event, reason, now);
            r.Synced? && userId !in r.marks ==>
              ResolveFromDb(settings, r.db, userId, t) == ResolveFromDb(settings, db, userId, t)
  {
    if !Sync(db, catalog, stripe, customer, event, reason, now).Ignored? {
      var rows, i := SyncWritesBack(db, catalog, stripe, customer, event, reason, now);
      UnmarkedWriteBackIsHarmless(settings, db, rows, i, Project(catalog, stripe.Fetch(customer)), event, reason, now, userId, t);
    }
  }
}
