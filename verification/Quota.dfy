/** Metering: the second half of app/services/quota.py. */
module Quota {
  import opened Models
  import opened Cache
  import opened Calendar

  /** None is no cap. */
  datatype QuotaLimit = QuotaLimit(key: string, limit: Option<nat>, window: WindowKind)

  datatype Outcome =
    | Unmetered
    | Accepted(used: nat)
    | Rejected(used: nat)
    | AllowedUncounted      // the cache could not answer: enforcement fails open

  /** The key lives for the whole seconds left of its window, and never less than a minute. */
  function KeyTtl(end: Instant, now: Instant): int {
    if (end - now) / SECOND > 60 then (end - now) / SECOND else 60
  }

  // ---- one call ----

  datatype UsageKey = UsageKey(userId: string, key: string, windowStart: Instant)

  /** The durable mirror of the counters, one row a user, key and window. Its concurrent upsert is
      UsageMirror's subject; here it lands whole or not at all. */
  class UsageTable {
    var counts: map<UsageKey, nat>

    constructor ()
      ensures counts == map[]
    {
      counts := map[];
    }

    method Mirror(key: UsageKey, fails: bool)
      modifies this
      ensures counts == if fails then old(counts) else Mirrored(old(counts), key)
    {
      if !fails {
        counts := counts[key := (if key in counts then counts[key] else 0) + 1];
      }
    }
  }

  function Mirrored(counts: map<UsageKey, nat>, key: UsageKey): map<UsageKey, nat> {
    counts[key := (if key in counts then counts[key] else 0) + 1]
  }

  /** What the counter says to one more unit. */
  function Verdict(limit: Option<nat>, used: nat): Outcome {
    if limit.Some? && used > limit.value then Rejected(used) else Accepted(used)
  }

  /** One call. The clock is read three times, for the window, for the lifetime, and by the cache. */
  method Consume(cache: InMemoryBackend, usage: UsageTable, userId: string, quota: Option<QuotaLimit>,
                 periodStart: Option<Instant>, periodEnd: Option<Instant>, now: Moment, ttlAt: Instant, countedAt: Instant,
                 cacheUp: bool, mirrorFails: bool)
    returns (outcome: Outcome)
    requires cache.Valid() && ValidMoment(now)
    modifies cache, usage
    ensures cache.Valid()
    ensures quota.None? ==> outcome == Unmetered && unchanged(cache) && unchanged(usage)
    ensures quota.Some? ==>
              var q := quota.value;
              var (start, end) := WindowFor(q.window, periodStart, periodEnd, now);
              var counter := QuotaKey(userId, q.key, start);
              && outcome == (if cacheUp then Verdict(q.limit, LiveCount(old(cache.data), counter, countedAt) + 1)
                             else AllowedUncounted)
              && cache.data == (if cacheUp then Bumped(old(cache.data), counter, KeyTtl(end, ttlAt), countedAt)
                                else old(cache.data))
              && usage.counts == (if outcome.Rejected? || mirrorFails then old(usage.counts)
                                  else Mirrored(old(usage.counts), UsageKey(userId, q.key, start)))
  {
    if quota.None? {
      return Unmetered;
    }
    var q := quota.value;
    var (start, end) := WindowFor(q.window, periodStart, periodEnd, now);
    var ttl := KeyTtl(end, ttlAt);
    if !cacheUp {
      usage.Mirror(UsageKey(userId, q.key, start), mirrorFails);
      return AllowedUncounted;
    }
    var used := cache.Incr(QuotaKey(userId, q.key, start), ttl, countedAt);
    if q.limit.Some? && used > q.limit.value {
      return Rejected(used);
    }
    usage.Mirror(UsageKey(userId, q.key, start), mirrorFails);
    return Accepted(used);
  }

  // ---- one window ----

  /** The calls made in one window: its counter, its end and its cap. */
  datatype Meter = Meter(key: Key, end: Instant, limit: Option<nat>)

  /** What the calls so far have come to. */
  datatype Tally = Tally(data: Data, durable: nat, accepted: nat, rejected: nat, uncounted: nat)

  /** A call: when its lifetime was computed, and when the cache counted it. */
  datatype Call = Call(ttlAt: Instant, now: Instant, cacheUp: bool)

  function Count(m: Meter, t: Tally, call: Call): Tally {
    if !call.cacheUp then t.(durable := t.durable + 1, uncounted := t.uncounted + 1)
    else
      var after := t.(data := Bumped(t.data, m.key, KeyTtl(m.end, call.ttlAt), call.now));
      if Verdict(m.limit, LiveCount(t.data, m.key, call.now) + 1).Rejected? then after.(rejected := t.rejected + 1)
      else after.(durable := t.durable + 1, accepted := t.accepted + 1)
  }

  function CountAll(m: Meter, t: Tally, calls: seq<Call>): Tally
    decreases |calls|
  {
    if calls == [] then t else CountAll(m, Count(m, t, calls[0]), calls[1..])
  }

  function Fresh(data: Data): Tally {
    Tally(data, 0, 0, 0, 0)
  }

  /** Calls in the order the cache counted them, the cache up for each, inside one window. */
  ghost predicate Within(m: Meter, calls: seq<Call>) {
    && (forall i :: 0 <= i < |calls| ==> calls[i].cacheUp && calls[i].ttlAt <= calls[i].now < m.end)
    && (forall i, j :: 0 <= i < j < |calls| ==> calls[i].now <= calls[j].now)
  }

  function Least(a: nat, b: nat): nat {
    if a <= b then a else b
  }

  /** How many of `n` calls a cap lets through. */
  function Admitted(limit: Option<nat>, n: nat): nat {
    if limit.None? then n else Least(n, limit.value)
  }

  /** The counter is alive and stands at `n`. */
  ghost predicate Standing(m: Meter, data: Data, n: nat, until: Instant) {
    m.key in data && data[m.key] == Entry(Value.Count(n), until)
  }

  /** While one life of the key lasts, it counts every call, and accepts up to the cap. */
  lemma {:induction false} OneLife(m: Meter, t: Tally, calls: seq<Call>, n: nat, until: Instant)
    requires Within(m, calls) && Standing(m, t.data, n, until)
    requires forall i :: 0 <= i < |calls| ==> calls[i].now < until
    ensures var r := CountAll(m, t, calls);
            && Standing(m, r.data, n + |calls|, until)
            && r.accepted - t.accepted == Admitted(m.limit, n + |calls|) - Admitted(m.limit, n)
    decreases |calls|
  {
    if calls != [] {
      OneLife(m, Count(m, t, calls[0]), calls[1..], n + 1, until);
    }
  }

  /** When the key that a call makes dies. */
  function Dies(m: Meter, call: Call): Instant {
    call.now + KeyTtl(m.end, call.ttlAt) * SECOND
  }

  /** From a dead counter: every call before the new key expires is counted, so exactly the first
      `limit` are accepted. */
  lemma ExactUntilTheKeyExpires(m: Meter, t: Tally, calls: seq<Call>)
    requires Within(m, calls) && calls != [] && Live(t.data, m.key, calls[0].now).None?
    requires forall i :: 0 <= i < |calls| ==> calls[i].now < Dies(m, calls[0])
    ensures CountAll(m, t, calls).accepted == t.accepted + Admitted(m.limit, |calls|)
    ensures Standing(m, CountAll(m, t, calls).data, |calls|, Dies(m, calls[0]))
  {
    OneLife(m, Count(m, t, calls[0]), calls[1..], 1, Dies(m, calls[0]));
  }

  /** A key lives to the window's last second; to its end if it was made in that second, or if the
      lifetime was computed a whole number of seconds before the end. */
  lemma KeyEndsInTheLastSecond(m: Meter, call: Call)
    requires call.ttlAt <= call.now < m.end
    ensures m.end - SECOND < Dies(m, call)
    ensures m.end - SECOND < call.now || (m.end - call.ttlAt) % SECOND == 0 ==> m.end <= Dies(m, call)
  {
  }

  lemma {:induction false} CountAllSplits(m: Meter, t: Tally, a: seq<Call>, b: seq<Call>)
    ensures CountAll(m, t, a + b) == CountAll(m, CountAll(m, t, a), b)
    decreases |a|
  {
    if a == [] {
      assert a + b == b;
    } else {
      assert (a + b)[1..] == a[1..] + b;
      CountAllSplits(m, Count(m, t, a[0]), a[1..], b);
    }
  }

  /** The calls of one window fall into those of the first life of the key and those after it. */
  ghost predicate Lives(m: Meter, a: seq<Call>, b: seq<Call>) {
    && Within(m, a + b) && (a == [] ==> b == [])
    && (forall i :: 0 <= i < |a| ==> a[i].now < Dies(m, a[0]))
    && (forall i :: 0 <= i < |b| ==> Dies(m, a[0]) <= b[i].now)
  }

  /** Every window's calls do, in exactly one place. */
  lemma {:induction false} LivesSplit(m: Meter, calls: seq<Call>, n: nat) returns (a: seq<Call>, b: seq<Call>)
    requires Within(m, calls) && n <= |calls|
    requires calls != [] ==> 0 < n && forall i :: n <= i < |calls| ==> Dies(m, calls[0]) <= calls[i].now
    ensures calls == a + b && Lives(m, a, b)
  {
    if n == 0 || calls[n - 1].now < Dies(m, calls[0]) {
      a, b := calls[..n], calls[n..];
      assert calls == a + b;
    } else {
      a, b := LivesSplit(m, calls, n - 1);
    }
  }

  /** How many are accepted, exactly: up to the cap in the first life, and up to the cap once more among
      the calls after it, which are all in the window's last second and share one life. */
  lemma AcceptedExactly(m: Meter, data: Data, a: seq<Call>, b: seq<Call>)
    requires Lives(m, a, b) && (a != [] ==> Live(data, m.key, a[0].now).None?)
    ensures CountAll(m, Fresh(data), a + b).accepted == Admitted(m.limit, |a|) + Admitted(m.limit, |b|)
    ensures forall i :: 0 <= i < |b| ==> m.end - SECOND < b[i].now
  {
    CountAllSplits(m, Fresh(data), a, b);
    if a != [] {
      assert a[0] == (a + b)[0] && forall i :: 0 <= i < |a| ==> a[i] == (a + b)[i];
      assert forall i :: 0 <= i < |b| ==> b[i] == (a + b)[|a| + i];
      assert Within(m, a) && Within(m, b);
      ExactUntilTheKeyExpires(m, Fresh(data), a);
      KeyEndsInTheLastSecond(m, a[0]);
      if b != [] {
        KeyEndsInTheLastSecond(m, b[0]);
        ExactUntilTheKeyExpires(m, CountAll(m, Fresh(data), a), b);
      }
    }
  }

  /** The cap holds over the whole window if and only if no call comes after the first life of the key,
      or there is no cap, or all the calls together are within it, or nothing is allowed at all. */
  lemma QuotaIsExactIff(m: Meter, data: Data, a: seq<Call>, b: seq<Call>)
    requires Lives(m, a, b) && (a != [] ==> Live(data, m.key, a[0].now).None?)
    ensures CountAll(m, Fresh(data), a + b).accepted == Admitted(m.limit, |a + b|)
            <==> b == [] || m.limit.None? || |a + b| <= m.limit.value || m.limit.value == 0
  {
    AcceptedExactly(m, data, a, b);
  }

  lemma TailOf(a: seq<Call>, b: seq<Call>)
    ensures forall i :: 0 <= i < |b| ==> b[i] == (a + b)[|a| + i]
    ensures a != [] ==> (a + b)[0] == a[0]
  {
  }

  /** So of the calls counted up to one second before the window ends, `limit` are accepted, and all of
      them when there are fewer. */
  lemma QuotaIsExactUpToTheLastSecond(m: Meter, data: Data, calls: seq<Call>)
    requires Within(m, calls) && (calls != [] ==> Live(data, m.key, calls[0].now).None?)
    requires forall i :: 0 <= i < |calls| ==> calls[i].now <= m.end - SECOND
    ensures CountAll(m, Fresh(data), calls).accepted == Admitted(m.limit, |calls|)
  {
    var a, b := LivesSplit(m, calls, |calls|);
    TailOf(a, b);
    AcceptedExactly(m, data, a, b);
  }

  /** And over the whole window when the first lifetime was a whole number of seconds. */
  lemma QuotaIsExactOnWholeSeconds(m: Meter, data: Data, calls: seq<Call>)
    requires Within(m, calls) && (calls != [] ==> Live(data, m.key, calls[0].now).None?)
    requires calls != [] ==> (m.end - calls[0].ttlAt) % SECOND == 0
    ensures CountAll(m, Fresh(data), calls).accepted == Admitted(m.limit, |calls|)
  {
    var a, b := LivesSplit(m, calls, |calls|);
    TailOf(a, b);
    AcceptedExactly(m, data, a, b);
    if calls != [] {
      KeyEndsInTheLastSecond(m, calls[0]);
    }
  }

  /** Over the whole window, whatever the instants, never more than twice the cap. */
  lemma QuotaAtMostDoubles(m: Meter, data: Data, calls: seq<Call>, limit: nat)
    requires Within(m, calls) && (calls != [] ==> Live(data, m.key, calls[0].now).None?)
    requires m.limit == Some(limit)
    ensures CountAll(m, Fresh(data), calls).accepted <= 2 * limit
  {
    var a, b := LivesSplit(m, calls, |calls|);
    AcceptedExactly(m, data, a, b);
  }

  function Repeated(call: Call, n: nat): seq<Call> {
    seq(n, i => call)
  }

  /** And twice the cap does happen, for every cap: as many calls half a second past a whole one, and as
      many again in the last half second, after the key they made has died. */
  lemma EveryCapCanDouble(key: Key, limit: nat)
    ensures var m := Meter(key, 100 * SECOND, Some(limit));
            var calls := Repeated(Call(500_000, 500_000, true), limit) + Repeated(Call(99_700_000, 99_700_000, true), limit);
            Within(m, calls) && CountAll(m, Fresh(map[]), calls).accepted == 2 * limit
  {
    var m := Meter(key, 100 * SECOND, Some(limit));
    var a, b := Repeated(Call(500_000, 500_000, true), limit), Repeated(Call(99_700_000, 99_700_000, true), limit);
    assert Dies(m, Call(500_000, 500_000, true)) == 99_500_000;
    assert forall i :: 0 <= i < |a + b| ==> (a + b)[i] == if i < limit then a[i] else b[i - limit];
    assert Lives(m, a, b);
    AcceptedExactly(m, map[], a, b);
  }

  /** Usage conservation: while the key lives, the cache counter is every call that reached it,
      accepted or rejected, and the durable row is every call that was let through. */
  lemma {:induction false} UsageIsConserved(m: Meter, t: Tally, calls: seq<Call>, until: Instant)
    requires Standing(m, t.data, t.accepted + t.rejected, until)
    requires t.durable == t.accepted + t.uncounted
    requires forall i :: 0 <= i < |calls| ==> calls[i].now < until
    ensures var r := CountAll(m, t, calls);
            && Standing(m, r.data, r.accepted + r.rejected, until)
            && r.durable == r.accepted + r.uncounted
            && r.accepted + r.rejected + r.uncounted == t.accepted + t.rejected + t.uncounted + |calls|
    decreases |calls|
  {
    if calls != [] {
      UsageIsConserved(m, Count(m, t, calls[0]), calls[1..], until);
    }
  }
}
