/** The shared counter: `RedisBackend.incr` in app/cache.py, as the commands it sends.

    INCR is atomic; reading the TTL and setting it are further commands, so other workers run in
    between and a worker can die after its INCR, leaving a key that would never expire.
 */
module RedisCounter {
  import opened Models
  import Quota

  type Worker = nat

  datatype Counter = Counter(n: nat, expiresAt: Option<Instant>)

  datatype Phase = Incremented(value: nat) | MustExpire

  /** `log` is every value INCR returned, with the life of the key it was returned in. */
  datatype State = State(
    key: Option<Counter>,
    clock: Instant,
    workers: map<Worker, Phase>,
    life: nat,
    log: seq<(nat, nat)>)

  datatype Step =
    | Increments(w: Worker)
    | ReadsTtl(w: Worker)
    | SetsExpiry(w: Worker, ttl: int)
    | Dies(w: Worker)
    | Ticks(to: Instant)

  predicate Enabled(s: State, step: Step) {
    match step
    case Increments(w) => w !in s.workers
    case ReadsTtl(w) => w in s.workers && s.workers[w].Incremented?
    case SetsExpiry(w, ttl) => w in s.workers && s.workers[w].MustExpire?
    case Dies(w) => w in s.workers
    case Ticks(to) => s.clock <= to
  }

  predicate Expires(s: State, to: Instant) {
    s.key.Some? && s.key.value.expiresAt.Some? && s.key.value.expiresAt.value <= to
  }

  function Apply(s: State, step: Step): State
    requires Enabled(s, step)
  {
    match step
    case Increments(w) =>
      var c := s.key.GetOr(Counter(0, None));
      s.(key := Some(c.(n := c.n + 1)),
         workers := s.workers[w := Incremented(c.n + 1)],
         log := s.log + [(s.life, c.n + 1)])
    case ReadsTtl(w) =>
      if s.workers[w].value == 1 || s.key.None? || s.key.value.expiresAt.None?
      then s.(workers := s.workers[w := MustExpire])
      else s.(workers := s.workers - {w})
    case SetsExpiry(w, ttl) =>
      s.(workers := s.workers - {w},
         key := if s.key.None? then None else Some(s.key.value.(expiresAt := Some(s.clock + ttl * SECOND))))
    case Dies(w) => s.(workers := s.workers - {w})
    case Ticks(to) =>
      if Expires(s, to) then s.(clock := to, key := None, life := s.life + 1) else s.(clock := to)
  }

  /** How many increments a life of the key saw, and how many of them returned at most `limit`. */
  function Seen(log: seq<(nat, nat)>, life: nat): nat {
    if log == [] then 0
    else Seen(log[..|log| - 1], life) + if log[|log| - 1].0 == life then 1 else 0
  }

  function Accepted(log: seq<(nat, nat)>, life: nat, limit: nat): nat {
    if log == [] then 0
    else Accepted(log[..|log| - 1], life, limit)
         + if log[|log| - 1].0 == life && log[|log| - 1].1 <= limit then 1 else 0
  }

  ghost predicate Inv(s: State, limit: nat) {
    && Seen(s.log, s.life) == (if s.key.Some? then s.key.value.n else 0)
    && (forall life :: s.life < life ==> Seen(s.log, life) == Accepted(s.log, life, limit) == 0)
    && (forall life :: Accepted(s.log, life, limit) ==
          if Seen(s.log, life) <= limit then Seen(s.log, life) else limit)
  }

  lemma StepKeepsInv(s: State, step: Step, limit: nat)
    requires Inv(s, limit) && Enabled(s, step)
    ensures Inv(Apply(s, step), limit)
  {
    var t := Apply(s, step);
    if step.Increments? {
      assert t.log[..|t.log| - 1] == s.log;
      forall life
        ensures Seen(t.log, life) == Seen(s.log, life) + if life == s.life then 1 else 0
        ensures Accepted(t.log, life, limit)
                == Accepted(s.log, life, limit) + if life == s.life && Seen(s.log, life) + 1 <= limit then 1 else 0
      {
      }
    }
  }

  ghost predicate Run(s: State, steps: seq<Step>, t: State)
    decreases |steps|
  {
    if steps == [] then s == t
    else Enabled(s, steps[0]) && Run(Apply(s, steps[0]), steps[1..], t)
  }

  lemma {:induction false} RunKeepsInv(s: State, steps: seq<Step>, t: State, limit: nat)
    requires Inv(s, limit) && Run(s, steps, t)
    ensures Inv(t, limit)
    decreases |steps|
  {
    if steps != [] {
      StepKeepsInv(s, steps[0], limit);
      RunKeepsInv(Apply(s, steps[0]), steps[1..], t, limit);
    }
  }

  /** No key yet. */
  function Empty(clock: Instant): State {
    State(None, clock, map[], 0, [])
  }

  lemma EmptyIsInv(clock: Instant, limit: nat)
    ensures Inv(Empty(clock), limit)
  {
  }

  /** However commands interleave and workers die, each life of the key accepts exactly the first
      `limit` of its increments. */
  lemma EachLifeIsExact(clock: Instant, steps: seq<Step>, t: State, life: nat, limit: nat)
    requires Run(Empty(clock), steps, t)
    ensures Accepted(t.log, life, limit) == if Seen(t.log, life) <= limit then Seen(t.log, life) else limit
  {
    EmptyIsInv(clock, limit);
    RunKeepsInv(Empty(clock), steps, t, limit);
  }

  // ---- one bucket of a rate limit ----

  /** Every lifetime set is a whole bucket's. */
  ghost predicate WholeBuckets(steps: seq<Step>, seconds: int) {
    forall i :: 0 <= i < |steps| && steps[i].SetsExpiry? ==> steps[i].ttl == seconds
  }

  /** The key's first life is not over before the bucket is. */
  ghost predicate FirstLife(s: State, start: Instant, seconds: int) {
    && start <= s.clock
    && (s.key.Some? && s.key.value.expiresAt.Some? ==> start + seconds * SECOND <= s.key.value.expiresAt.value)
    && (s.clock < start + seconds * SECOND ==> s.life == 0 && forall i :: 0 <= i < |s.log| ==> s.log[i].0 == 0)
  }

  lemma {:induction false} FirstLifeLasts(s: State, steps: seq<Step>, t: State, start: Instant, seconds: int)
    requires FirstLife(s, start, seconds) && Run(s, steps, t) && WholeBuckets(steps, seconds)
    ensures FirstLife(t, start, seconds)
    decreases |steps|
  {
    if steps != [] {
      assert forall i :: 0 <= i < |steps[1..]| ==> steps[1..][i] == steps[i + 1];
      FirstLifeLasts(Apply(s, steps[0]), steps[1..], t, start, seconds);
    }
  }

  lemma {:induction false} OneLifeSeesAll(log: seq<(nat, nat)>)
    requires forall i :: 0 <= i < |log| ==> log[i].0 == 0
    ensures Seen(log, 0) == |log|
  {
    if log != [] { OneLifeSeesAll(log[..|log| - 1]); }
  }

  /** The bucket bound on the shared cache: the requests that reach a bucket's key before the bucket ends
      all fall in one life of it, so exactly the first `limit` of them are let through, whatever workers
      die between counting and setting the lifetime. */
  lemma BucketIsExact(clock: Instant, steps: seq<Step>, t: State, start: Instant, seconds: int, limit: nat)
    requires start <= clock && Run(Empty(clock), steps, t) && WholeBuckets(steps, seconds)
    requires t.clock < start + seconds * SECOND
    ensures t.life == 0
    ensures Accepted(t.log, 0, limit) == if |t.log| <= limit then |t.log| else limit
  {
    FirstLifeLasts(Empty(clock), steps, t, start, seconds);
    OneLifeSeesAll(t.log);
    EachLifeIsExact(clock, steps, t, 0, limit);
  }

  /** A key left without a lifetime by a dead worker is repaired by the next increment that completes,
      and once it has a lifetime it keeps one until it expires. */
  lemma CompletedIncrementLeavesALifetime(s: State, step: Step)
    requires Enabled(s, step)
    ensures var t := Apply(s, step);
            && ((step.ReadsTtl? || step.SetsExpiry?) && step.w !in t.workers && t.key.Some? ==> t.key.value.expiresAt.Some?)
            && (s.key.Some? && s.key.value.expiresAt.Some? && t.key.Some? ==> t.key.value.expiresAt.Some?)
            && (s.key.Some? && s.key.value.expiresAt.None? ==> t.key.Some?)
  {
  }

  // ---- one window of a quota ----

  /** A lifetime set for a quota, by a worker that computed it before. */
  ghost predicate QuotaTtl(clock: Instant, ttl: int, end: Instant) {
    exists at :: at <= clock && ttl == Quota.KeyTtl(end, at)
  }

  ghost predicate QuotaRun(s: State, steps: seq<Step>, t: State, end: Instant)
    decreases |steps|
  {
    if steps == [] then s == t
    else
      && Enabled(s, steps[0]) && (steps[0].SetsExpiry? ==> QuotaTtl(s.clock, steps[0].ttl, end))
      && QuotaRun(Apply(s, steps[0]), steps[1..], t, end)
  }

  /** The first life of the key reaches the window's last second, and the second the window's end. */
  ghost predicate TwoLives(s: State, end: Instant) {
    && (s.key.Some? && s.key.value.expiresAt.Some? ==>
          if s.life == 0 then end - SECOND < s.key.value.expiresAt.value else end <= s.key.value.expiresAt.value)
    && (s.life > 0 ==> end - SECOND < s.clock)
    && (s.life > 1 ==> end <= s.clock)
    && (s.key.Some? ==> s.key.value.n > 0)
  }

  lemma StepKeepsLives(s: State, step: Step, end: Instant)
    requires TwoLives(s, end) && Enabled(s, step) && (step.SetsExpiry? ==> QuotaTtl(s.clock, step.ttl, end))
    ensures TwoLives(Apply(s, step), end)
  {
  }

  lemma {:induction false} LivesLast(s: State, steps: seq<Step>, t: State, end: Instant, limit: nat)
    requires TwoLives(s, end) && Inv(s, limit) && (s.life > 0 ==> Seen(s.log, 0) > 0) && QuotaRun(s, steps, t, end)
    ensures TwoLives(t, end) && Inv(t, limit) && (t.life > 0 ==> Seen(t.log, 0) > 0)
    decreases |steps|
  {
    if steps != [] {
      var next := Apply(s, steps[0]);
      StepKeepsLives(s, steps[0], end);
      StepKeepsInv(s, steps[0], limit);
      assert steps[0].Increments? ==> next.log[..|next.log| - 1] == s.log;
      LivesLast(next, steps[1..], t, end, limit);
    }
  }

  /** How many increments returned at most `limit`, in any life. */
  function AllAccepted(log: seq<(nat, nat)>, limit: nat): nat {
    if log == [] then 0 else AllAccepted(log[..|log| - 1], limit) + if log[|log| - 1].1 <= limit then 1 else 0
  }

  lemma {:induction false} TwoLivesAreAll(log: seq<(nat, nat)>, limit: nat)
    requires forall life :: life > 1 ==> Seen(log, life) == 0
    ensures |log| == Seen(log, 0) + Seen(log, 1)
    ensures AllAccepted(log, limit) == Accepted(log, 0, limit) + Accepted(log, 1, limit)
  {
    if log != [] {
      var init, last := log[..|log| - 1], log[|log| - 1];
      assert Seen(log, last.0) > 0;
      forall life: nat | life > 1 ensures Seen(init, life) == 0 {
        assert Seen(log, life) == 0;
      }
      TwoLivesAreAll(init, limit);
    }
  }

  /** The quota on the shared cache, whose lifetimes are rounded down to whole seconds. Up to the window's
      last second its calls share one life of the key; to its end they fall in two at most, so never more
      than twice the cap is accepted. And it is the cap exactly, or all the calls there were, unless calls
      came after the first life, were more than the cap in all, and the cap is not nothing. */
  lemma SharedQuotaIsExactIff(clock: Instant, steps: seq<Step>, t: State, end: Instant, limit: nat)
    requires QuotaRun(Empty(clock), steps, t, end) && t.clock < end
    ensures t.clock <= end - SECOND ==> Seen(t.log, 1) == 0
    ensures AllAccepted(t.log, limit) <= 2 * limit
    ensures AllAccepted(t.log, limit) == (if |t.log| <= limit then |t.log| else limit)
            <==> Seen(t.log, 1) == 0 || |t.log| <= limit || limit == 0
  {
    EmptyIsInv(clock, limit);
    LivesLast(Empty(clock), steps, t, end, limit);
    TwoLivesAreAll(t.log, limit);
  }

  lemma {:induction false} QuotaOn(s: State, a: seq<Step>, t: State, b: seq<Step>, u: State, end: Instant)
    requires QuotaRun(s, a, t, end) && QuotaRun(t, b, u, end)
    ensures QuotaRun(s, a + b, u, end)
    decreases |a|
  {
    if a == [] {
      assert a + b == b;
    } else {
      assert (a + b)[1..] == a[1..] + b;
      QuotaOn(Apply(s, a[0]), a[1..], t, b, u, end);
    }
  }

  lemma QuotaStep(s: State, a: seq<Step>, t: State, step: Step, end: Instant)
    requires QuotaRun(s, a, t, end) && Enabled(t, step) && (step.SetsExpiry? ==> QuotaTtl(t.clock, step.ttl, end))
    ensures QuotaRun(s, a + [step], Apply(t, step), end)
  {
    assert [step][1..] == [];
    assert QuotaRun(Apply(t, step), [], Apply(t, step), end);
    QuotaOn(s, a, t, [step], Apply(t, step), end);
  }

  /** `n` calls one after another, on a counter that is not there: the first of them gives it its lifetime. */
  lemma {:induction false} Calls(s: State, n: nat, ttl: int, end: Instant, limit: nat) returns (steps: seq<Step>, t: State)
    requires s.key.None? && 0 !in s.workers && 0 < n <= limit && QuotaTtl(s.clock, ttl, end)
    ensures QuotaRun(s, steps, t, end) && AllAccepted(t.log, limit) == AllAccepted(s.log, limit) + n
    ensures t == s.(key := Some(Counter(n, Some(s.clock + ttl * SECOND))), log := t.log)
  {
    steps, t := [], s;
    if n > 1 {
      steps, t := Calls(s, n - 1, ttl, end, limit);
    }
    var counted := Apply(t, Increments(0));
    QuotaStep(s, steps, t, Increments(0), end);
    QuotaStep(s, steps + [Increments(0)], counted, ReadsTtl(0), end);
    steps, t := steps + [Increments(0)] + [ReadsTtl(0)], Apply(counted, ReadsTtl(0));
    if n == 1 {
      QuotaStep(s, steps, t, SetsExpiry(0, ttl), end);
      steps, t := steps + [SetsExpiry(0, ttl)], Apply(t, SetsExpiry(0, ttl));
    }
    assert counted.log[..|counted.log| - 1] + [(s.life, n)] == counted.log;
    assert t.workers == s.workers;
  }

  /** A second life does happen, for every cap: as many calls half a second past a whole one, and as many
      again in the last half second, after the key they made has died. */
  lemma EverySharedCapCanDouble(limit: nat) returns (steps: seq<Step>, t: State)
    requires limit > 0
    ensures QuotaRun(Empty(500_000), steps, t, 100 * SECOND) && t.clock < 100 * SECOND
    ensures AllAccepted(t.log, limit) == 2 * limit
  {
    var s, end := Empty(500_000), 100 * SECOND;
    assert Quota.KeyTtl(end, s.clock) == 99 && Quota.KeyTtl(end, 99_700_000) == 60;
    steps, t := Calls(s, limit, 99, end, limit);
    QuotaStep(s, steps, t, Ticks(99_700_000), end);
    steps, t := steps + [Ticks(99_700_000)], Apply(t, Ticks(99_700_000));
    var again, u := Calls(t, limit, 60, end, limit);
    QuotaOn(s, steps, t, again, u, end);
    steps, t := steps + again, u;
  }
}
