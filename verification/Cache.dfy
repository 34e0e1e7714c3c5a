/** The expiring cache and its counters: app/cache.py.

    `InMemoryBackend` keeps its entries in one map that every operation updates in place. The clock
    is a parameter. `Live`, `Evicted` and `Bumped` say on plain values what its methods do.
 */
module Cache {
  import opened Models

  datatype Key =
    | EntitlementKey(userId: string)
    | StaleKey(userId: string)
    | QuotaKey(userId: string, quota: string, windowStart: Instant)
    | RateKey(scope: string, window: string, identity: string, bucket: int)
  {
    predicate IsCounter() {
      QuotaKey? || RateKey?
    }
  }

  datatype Value = Payload(entitlements: Entitlements) | Count(n: nat)

  datatype Entry = Entry(value: Value, expiresAt: Instant)

  type Data = map<Key, Entry>

  /** What a read at `now` sees: an entry is dead from its expiry instant on. */
  function Live(data: Data, key: Key, now: Instant): Option<Value> {
    if key in data && now < data[key].expiresAt then Some(data[key].value) else None
  }

  /** The entries after a read of `key`, which drops it when it is dead. */
  function Evicted(data: Data, key: Key, now: Instant): Data {
    if key in data && data[key].expiresAt <= now then data - {key} else data
  }

  ghost predicate CountersHoldCounts(data: Data) {
    forall key :: key in data && key.IsCounter() ==> data[key].value.Count?
  }

  function LiveCount(data: Data, key: Key, now: Instant): nat {
    match Live(data, key, now)
    case Some(Count(n)) => n
    case _ => 0
  }

  /** The entries after one increment: a live counter keeps its expiry, a dead one starts over. */
  function Bumped(data: Data, key: Key, ttl: int, now: Instant): Data {
    var n := LiveCount(data, key, now) + 1;
    data[key := Entry(Count(n), if Live(data, key, now).Some? then data[key].expiresAt else now + ttl * SECOND)]
  }

  class InMemoryBackend {
    var data: Data

    ghost predicate Valid()
      reads this
    {
      CountersHoldCounts(data)
    }

    constructor ()
      ensures Valid() && data == map[]
    {
      data := map[];
    }

    method LiveValue(key: Key, now: Instant) returns (value: Option<Value>)
      requires Valid()
      modifies this
      ensures Valid()
      ensures value == Live(old(data), key, now)
      ensures data == Evicted(old(data), key, now)
    {
      if key !in data {
        return None;
      }
      var item := data[key];
      if item.expiresAt <= now {
        data := data - {key};
        return None;
      }
      return Some(item.value);
    }

    method Set(key: Key, value: Value, ttl: int, now: Instant)
      requires Valid() && (key.IsCounter() ==> value.Count?)
      modifies this
      ensures Valid()
      ensures data == old(data)[key := Entry(value, now + ttl * SECOND)]
    {
      data := data[key := Entry(value, now + ttl * SECOND)];
    }

    method Delete(key: Key)
      requires Valid()
      modifies this
      ensures Valid()
      ensures data == old(data) - {key}
    {
      data := data - {key};
    }

    method Incr(key: Key, ttl: int, now: Instant) returns (used: nat)
      requires Valid() && key.IsCounter()
      modifies this
      ensures Valid()
      ensures used == LiveCount(old(data), key, now) + 1
      ensures data == Bumped(old(data), key, ttl, now)
    {
      var current := LiveValue(key, now);
      if current.None? {
        data := data[key := Entry(Count(1), now + ttl * SECOND)];
        return 1;
      }
      used := current.value.n + 1;
      data := data[key := Entry(Count(used), data[key].expiresAt)];
    }
  }

  /** What is stored is read until its lifetime is over, and not once it is deleted; other keys do not notice. */
  lemma StoredIsReadExactly(data: Data, key: Key, value: Value, ttl: int, now: Instant, other: Key, t: Instant)
    ensures Live(data[key := Entry(value, now + ttl * SECOND)], other, t)
            == if other != key then Live(data, other, t) else if t < now + ttl * 1_000_000 then Some(value) else None
    ensures Live(data - {key}, other, t) == if other != key then Live(data, other, t) else None
    ensures other != key ==> Live(Bumped(data, key, ttl, now), other, t) == Live(data, other, t)
  {
  }

  /** Evicting a dead entry is invisible to every read from then on. */
  lemma EvictionIsInvisible(data: Data, key: Key, now: Instant, other: Key, later: Instant)
    requires now <= later
    ensures Live(Evicted(data, key, now), other, later) == Live(data, other, later)
  {
  }
}
