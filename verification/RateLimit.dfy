/** Fixed-window rate limiting over several windows at once: app/ratelimit.py. */
module RateLimit {
  import opened Models
  import opened Cache

  datatype Window = Window(name: string, limit: int, seconds: int)

  datatype Verdict = Allowed | RateLimited(window: nat, retryAfter: int)

  function Span(w: Window): int {
    w.seconds * SECOND
  }

  function Bucket(w: Window, now: Instant): int
    requires w.seconds > 0
  {
    now / Span(w)
  }

  function KeyOf(scope: string, identity: string, w: Window, bucket: int): Key {
    RateKey(scope, w.name, identity, bucket)
  }

  ghost predicate Usable(windows: seq<Window>) {
    && (forall i :: 0 <= i < |windows| ==> windows[i].seconds > 0)
    && (forall i, j :: 0 <= i < j < |windows| ==> windows[i].name != windows[j].name)
  }

  /** One request against the windows from position `i` on. */
  function EnforceFrom(data: Data, scope: string, identity: string, windows: seq<Window>, i: nat, now: Instant): (Data, Verdict)
    requires Usable(windows) && i <= |windows|
    decreases |windows| - i
  {
    if i == |windows| then (data, Allowed)
    else if windows[i].limit <= 0 then EnforceFrom(data, scope, identity, windows, i + 1, now)
    else
      var w := windows[i];
      var key := KeyOf(scope, identity, w, Bucket(w, now));
      var after := Bumped(data, key, w.seconds, now);
      if LiveCount(data, key, now) + 1 > w.limit then (after, RateLimited(i, RetryAfter(w, now)))
      else EnforceFrom(after, scope, identity, windows, i + 1, now)
  }

  function RetryAfter(w: Window, now: Instant): int
    requires w.seconds > 0
  {
    var left := ((Bucket(w, now) + 1) * Span(w) - now) / SECOND;
    if left > 1 then left else 1
  }

  /** The same when the cache answers only the next `answered` increments: at the first it does not, the
      request is let through, and what was counted so far stays counted. */
  function EnforceWhile(data: Data, scope: string, identity: string, windows: seq<Window>, i: nat, now: Instant, answered: nat): (Data, Verdict)
    requires Usable(windows) && i <= |windows|
    decreases |windows| - i
  {
    if i == |windows| then (data, Allowed)
    else if windows[i].limit <= 0 then EnforceWhile(data, scope, identity, windows, i + 1, now, answered)
    else if answered == 0 then (data, Allowed)
    else
      var w := windows[i];
      var key := KeyOf(scope, identity, w, Bucket(w, now));
      var after := Bumped(data, key, w.seconds, now);
      if LiveCount(data, key, now) + 1 > w.limit then (after, RateLimited(i, RetryAfter(w, now)))
      else EnforceWhile(after, scope, identity, windows, i + 1, now, answered - 1)
  }

  /** An outage part way only ever lets more through: a refusal is the one there would have been without
      it, with the same counters; and with every increment answered there is no difference. */
  lemma {:induction false} OutageOnlyAdmits(data: Data, scope: string, identity: string, windows: seq<Window>, i: nat, now: Instant, answered: nat)
    requires Usable(windows) && i <= |windows|
    ensures var (after, verdict) := EnforceWhile(data, scope, identity, windows, i, now, answered);
            verdict.RateLimited? || answered >= |windows| - i ==>
              (after, verdict) == EnforceFrom(data, scope, identity, windows, i, now)
    decreases |windows| - i
  {
    if i < |windows| {
      if windows[i].limit <= 0 {
        OutageOnlyAdmits(data, scope, identity, windows, i + 1, now, answered);
      } else if answered > 0 {
        var w := windows[i];
        var after := Bumped(data, KeyOf(scope, identity, w, Bucket(w, now)), w.seconds, now);
        OutageOnlyAdmits(after, scope, identity, windows, i + 1, now, answered - 1);
      }
    }
  }

  /** One request. The cache answers the first `answered` increments and then cannot: it fails open. */
  method Enforce(cache: InMemoryBackend, scope: string, identity: string, windows: seq<Window>, now: Instant, answered: nat)
    returns (verdict: Verdict)
    requires cache.Valid() && Usable(windows)
    modifies cache
    ensures cache.Valid()
    ensures (cache.data, verdict) == EnforceWhile(old(cache.data), scope, identity, windows, 0, now, answered)
    ensures verdict.RateLimited? || answered >= |windows| ==>
              (cache.data, verdict) == EnforceFrom(old(cache.data), scope, identity, windows, 0, now)
  {
    OutageOnlyAdmits(cache.data, scope, identity, windows, 0, now, answered);
    var left := answered;
    for i := 0 to |windows|
      invariant cache.Valid()
      invariant EnforceWhile(old(cache.data), scope, identity, windows, 0, now, answered)
                == EnforceWhile(cache.data, scope, identity, windows, i, now, left)
    {
      var w := windows[i];
      if w.limit > 0 {
        if left == 0 {
          return Allowed;
        }
        left := left - 1;
        var used := cache.Incr(KeyOf(scope, identity, w, Bucket(w, now)), w.seconds, now);
        if used > w.limit {
          return RateLimited(i, RetryAfter(w, now));
        }
      }
    }
    return Allowed;
  }

  // ---- counters and their buckets ----

  /** Every counter of this caller lives at least to the end of its bucket. */
  ghost predicate Lasting(data: Data, scope: string, identity: string, windows: seq<Window>) {
    forall i, b :: 0 <= i < |windows| && KeyOf(scope, identity, windows[i], b) in data ==>
      var e := data[KeyOf(scope, identity, windows[i], b)];
      e.value.Count? && (b + 1) * Span(windows[i]) <= e.expiresAt
  }

  /** What the counter of a bucket stands at, whenever in the bucket one looks. */
  function Counted(data: Data, key: Key): nat {
    if key in data && data[key].value.Count? then data[key].value.n else 0
  }

  /** A counter never expires inside its own bucket. */
  lemma NeverExpiresInItsBucket(data: Data, scope: string, identity: string, windows: seq<Window>, i: nat, now: Instant)
    requires Usable(windows) && Lasting(data, scope, identity, windows) && i < |windows|
    ensures var key := KeyOf(scope, identity, windows[i], Bucket(windows[i], now));
            LiveCount(data, key, now) == Counted(data, key) && (key in data ==> Live(data, key, now).Some?)
  {
    var w := windows[i];
    InBucket(w, now);
  }

  lemma InBucket(w: Window, now: Instant)
    requires w.seconds > 0
    ensures Bucket(w, now) * Span(w) <= now < (Bucket(w, now) + 1) * Span(w)
  {
    var b := Bucket(w, now);
    assert now == b * Span(w) + now % Span(w);
    assert (b + 1) * Span(w) == b * Span(w) + Span(w);
  }

  /** One increment counts once, for its own bucket alone, and what it counts lasts that bucket out. */
  lemma BumpCounts(data: Data, scope: string, identity: string, windows: seq<Window>, i: nat, now: Instant)
    requires Usable(windows) && Lasting(data, scope, identity, windows) && i < |windows|
    ensures var w := windows[i];
            var key := KeyOf(scope, identity, w, Bucket(w, now));
            var after := Bumped(data, key, w.seconds, now);
            && Lasting(after, scope, identity, windows)
            && forall other :: Counted(after, other) == Counted(data, other) + if other == key then 1 else 0
  {
    var w := windows[i];
    NeverExpiresInItsBucket(data, scope, identity, windows, i, now);
    InBucket(w, now);
    assert (Bucket(w, now) + 1) * Span(w) == Bucket(w, now) * Span(w) + Span(w);
  }

  lemma {:induction false} EnforceCounts(data: Data, scope: string, identity: string, windows: seq<Window>, i: nat, now: Instant)
    requires Usable(windows) && i <= |windows| && Lasting(data, scope, identity, windows)
    ensures var (after, verdict) := EnforceFrom(data, scope, identity, windows, i, now);
            && Lasting(after, scope, identity, windows)
            && (forall key :: Counted(data, key) <= Counted(after, key))
            && (forall k :: 0 <= k < i ==>
                  var key := KeyOf(scope, identity, windows[k], Bucket(windows[k], now));
                  Counted(after, key) == Counted(data, key))
            && (verdict.Allowed? ==>
                  forall k :: i <= k < |windows| && windows[k].limit > 0 ==>
                    var key := KeyOf(scope, identity, windows[k], Bucket(windows[k], now));
                    Counted(after, key) == Counted(data, key) + 1 <= windows[k].limit)
            && (verdict.RateLimited? ==>
                  var k := verdict.window;
                  && i <= k < |windows| && windows[k].limit > 0
                  && windows[k].limit <= Counted(data, KeyOf(scope, identity, windows[k], Bucket(windows[k], now))))
    decreases |windows| - i
  {
    if i < |windows| {
      if windows[i].limit <= 0 {
        EnforceCounts(data, scope, identity, windows, i + 1, now);
      } else {
        var w := windows[i];
        var key := KeyOf(scope, identity, w, Bucket(w, now));
        var after := Bumped(data, key, w.seconds, now);
        NeverExpiresInItsBucket(data, scope, identity, windows, i, now);
        BumpCounts(data, scope, identity, windows, i, now);
        EnforceCounts(after, scope, identity, windows, i + 1, now);
      }
    }
  }

  /** Nobody else's counters move: not of another caller, nor of another endpoint. */
  lemma {:induction false} OthersDoNotCount(data: Data, scope: string, identity: string, windows: seq<Window>, i: nat, now: Instant,
                                            otherScope: string, other: string, w: Window, bucket: int)
    requires Usable(windows) && i <= |windows| && (scope != otherScope || identity != other)
    ensures var key := KeyOf(otherScope, other, w, bucket);
            var after := EnforceFrom(data, scope, identity, windows, i, now).0;
            (key in after <==> key in data) && (key in after ==> after[key] == data[key])
    decreases |windows| - i
  {
    if i < |windows| {
      OthersDoNotCount(data, scope, identity, windows, i + 1, now, otherScope, other, w, bucket);
      if windows[i].limit > 0 {
        var after := Bumped(data, KeyOf(scope, identity, windows[i], Bucket(windows[i], now)), windows[i].seconds, now);
        OthersDoNotCount(after, scope, identity, windows, i + 1, now, otherScope, other, w, bucket);
      }
    }
  }

  // ---- runs of requests by one caller ----

  /** A caller, the windows it is held to, and the requests it makes, in the order they arrive. */
  datatype Caller = Caller(scope: string, identity: string, windows: seq<Window>, data: Data, at: seq<Instant>)

  ghost predicate Proper(c: Caller) {
    Usable(c.windows) && Lasting(c.data, c.scope, c.identity, c.windows)
  }

  /** The entries after the first `n` requests, and whether the next one is let through. */
  function DataAfter(c: Caller, n: nat): Data
    requires Usable(c.windows) && n <= |c.at|
  {
    if n == 0 then c.data
    else EnforceFrom(DataAfter(c, n - 1), c.scope, c.identity, c.windows, 0, c.at[n - 1]).0
  }

  predicate Passes(c: Caller, n: nat)
    requires Usable(c.windows) && n < |c.at|
  {
    EnforceFrom(DataAfter(c, n), c.scope, c.identity, c.windows, 0, c.at[n]).1.Allowed?
  }

  /** How many of the first `n` requests passed at an instant in [lo, hi). */
  function Passed(c: Caller, n: nat, lo: Instant, hi: Instant): nat
    requires Usable(c.windows) && n <= |c.at|
  {
    if n == 0 then 0
    else Passed(c, n - 1, lo, hi) + if lo <= c.at[n - 1] < hi && Passes(c, n - 1) then 1 else 0
  }

  /** In every bucket of every enabled window, at most `limit` requests pass. */
  lemma {:induction false} BucketBound(c: Caller, n: nat, k: nat, b: int)
    requires Proper(c) && n <= |c.at| && k < |c.windows| && c.windows[k].limit > 0
    ensures Lasting(DataAfter(c, n), c.scope, c.identity, c.windows)
    ensures var w := c.windows[k];
            var passed := Passed(c, n, b * Span(w), (b + 1) * Span(w));
            passed <= w.limit && passed <= Counted(DataAfter(c, n), KeyOf(c.scope, c.identity, w, b))
  {
    if n > 0 {
      BucketBound(c, n - 1, k, b);
      var w, now := c.windows[k], c.at[n - 1];
      EnforceCounts(DataAfter(c, n - 1), c.scope, c.identity, c.windows, 0, now);
      if b * Span(w) <= now < (b + 1) * Span(w) { BucketIs(w, now, b); }
    }
  }

  lemma BucketIs(w: Window, now: Instant, b: int)
    requires w.seconds > 0 && b * Span(w) <= now < (b + 1) * Span(w)
    ensures Bucket(w, now) == b
  {
    InBucket(w, now);
    var a, s := Bucket(w, now), Span(w);
    assert a < b ==> (a + 1) * s <= b * s;
    assert b < a ==> (b + 1) * s <= a * s;
  }

  lemma {:induction false} PassedSplits(c: Caller, n: nat, lo: Instant, mid: Instant, hi: Instant)
    requires Usable(c.windows) && n <= |c.at| && lo <= mid <= hi
    ensures Passed(c, n, lo, hi) == Passed(c, n, lo, mid) + Passed(c, n, mid, hi)
  {
    if n > 0 { PassedSplits(c, n - 1, lo, mid, hi); }
  }

  lemma {:induction false} BucketsInARow(c: Caller, n: nat, k: nat, b: int, count: nat)
    requires Proper(c) && n <= |c.at| && k < |c.windows| && c.windows[k].limit > 0
    ensures var w := c.windows[k];
            Passed(c, n, b * Span(w), (b + count) * Span(w)) <= count * w.limit
  {
    var w := c.windows[k];
    if count == 0 {
      NonePass(c, n, b * Span(w));
    } else {
      BucketsInARow(c, n, k, b, count - 1);
      BucketBound(c, n, k, b + count - 1);
      assert b * Span(w) <= (b + count - 1) * Span(w) <= (b + count) * Span(w);
      PassedSplits(c, n, b * Span(w), (b + count - 1) * Span(w), (b + count) * Span(w));
      assert (count - 1) * w.limit + w.limit == count * w.limit;
    }
  }

  lemma {:induction false} NonePass(c: Caller, n: nat, t: Instant)
    requires Usable(c.windows) && n <= |c.at|
    ensures Passed(c, n, t, t) == 0
  {
    if n > 0 { NonePass(c, n - 1, t); }
  }

  /** The rate bound. Whatever the arrival times, any interval as long as `count` windows lets at most
      `count + 1` limits through, for every enabled window at once. */
  lemma AnyIntervalIsBounded(c: Caller, k: nat, lo: Instant, count: nat)
    requires Proper(c) && k < |c.windows| && c.windows[k].limit > 0
    ensures var w := c.windows[k];
            Passed(c, |c.at|, lo, lo + count * Span(w)) <= (count + 1) * w.limit
  {
    var w := c.windows[k];
    var b, s := Bucket(w, lo), Span(w);
    InBucket(w, lo);
    assert (b + count + 1) * s == (b + 1) * s + count * s;
    assert lo + count * s <= (b + count + 1) * s;
    BucketsInARow(c, |c.at|, k, b, count + 1);
    assert 0 <= count * s;
    PassedSplits(c, |c.at|, b * s, lo, (b + count + 1) * s);
    PassedSplits(c, |c.at|, lo, lo + count * s, (b + count + 1) * s);
  }

  /** And it does not refuse too soon: a refusal means some window had already counted its limit. */
  lemma RefusedOnlyAtTheLimit(c: Caller, n: nat)
    requires Proper(c) && n < |c.at| && !Passes(c, n)
    ensures exists k :: 0 <= k < |c.windows| && c.windows[k].limit > 0
                        && c.windows[k].limit <= Counted(DataAfter(c, n), KeyOf(c.scope, c.identity, c.windows[k], Bucket(c.windows[k], c.at[n])))
  {
    StaysLasting(c, n);
    EnforceCounts(DataAfter(c, n), c.scope, c.identity, c.windows, 0, c.at[n]);
  }

  lemma {:induction false} StaysLasting(c: Caller, n: nat)
    requires Proper(c) && n <= |c.at|
    ensures Lasting(DataAfter(c, n), c.scope, c.identity, c.windows)
  {
    if n > 0 {
      StaysLasting(c, n - 1);
      EnforceCounts(DataAfter(c, n - 1), c.scope, c.identity, c.windows, 0, c.at[n - 1]);
    }
  }

  // ---- when a refused client is told to come back ----

  /** The bucket a client finds that waits exactly as long as it is told. The whole seconds left are rounded
      down, so it is the next bucket if and only if a whole number was left, or less than one; otherwise
      the same bucket has up to a second to go. */
  lemma RetryLandsExactly(w: Window, now: Instant)
    requires w.seconds > 0
    ensures var end, back := (Bucket(w, now) + 1) * Span(w), now + RetryAfter(w, now) * SECOND;
            && now < back && end - SECOND < back < end + SECOND
            && Bucket(w, back) == if (end - now) % SECOND == 0 || end - now < SECOND then Bucket(w, now) + 1 else Bucket(w, now)
  {
    var b, s := Bucket(w, now), Span(w);
    var back := now + RetryAfter(w, now) * SECOND;
    InBucket(w, now);
    assert (b + 2) * s == (b + 1) * s + s;
    if (b + 1) * s <= back {
      BucketIs(w, back, b + 1);
    } else {
      BucketIs(w, back, b);
    }
  }

  /** And then it is refused again, with nobody else about: the window that refused it still stands full. */
  lemma TheRetryIsRefusedAgain(data: Data, scope: string, identity: string, windows: seq<Window>, now: Instant)
    requires Usable(windows) && Lasting(data, scope, identity, windows)
    ensures var (after, verdict) := EnforceFrom(data, scope, identity, windows, 0, now);
            verdict.RateLimited? ==>
              && verdict.window < |windows| && verdict.retryAfter == RetryAfter(windows[verdict.window], now)
              && (var w := windows[verdict.window];
                  var left := (Bucket(w, now) + 1) * Span(w) - now;
                  left > SECOND && left % SECOND != 0 ==>
                    EnforceFrom(after, scope, identity, windows, 0, now + verdict.retryAfter * SECOND).1.RateLimited?)
  {
    EnforceCounts(data, scope, identity, windows, 0, now);
    RefusalSaysWhen(data, scope, identity, windows, 0, now);
    var (after, verdict) := EnforceFrom(data, scope, identity, windows, 0, now);
    if verdict.RateLimited? {
      RetryLandsExactly(windows[verdict.window], now);
      EnforceCounts(after, scope, identity, windows, 0, now + verdict.retryAfter * SECOND);
    }
  }

  lemma {:induction false} RefusalSaysWhen(data: Data, scope: string, identity: string, windows: seq<Window>, i: nat, now: Instant)
    requires Usable(windows) && i <= |windows|
    ensures var verdict := EnforceFrom(data, scope, identity, windows, i, now).1;
            verdict.RateLimited? ==>
              i <= verdict.window < |windows| && verdict.retryAfter == RetryAfter(windows[verdict.window], now)
    decreases |windows| - i
  {
    if i < |windows| {
      var w := windows[i];
      RefusalSaysWhen(data, scope, identity, windows, i + 1, now);
      if w.limit > 0 {
        RefusalSaysWhen(Bumped(data, KeyOf(scope, identity, w, Bucket(w, now)), w.seconds, now), scope, identity, windows, i + 1, now);
      }
    }
  }
}
