/** The shared invite-code bucket: lazy refill, bounded memory. */
module RateLimit {
  import opened Core

  const DEFAULT_BURST: int := 10
  const DEFAULT_REFILL: int := 6_000_000_000
  const TRACKED_CALLERS: nat := 4096
  const NANOS_PER_MICRO: int := 1000
  const NANOS_PER_SECOND: int := 1_000_000_000

  type Caller = string

  /** Refill is a duration in nanoseconds; instants are microseconds. */
  datatype Limit = Limit(burst: int, refill: int)

  ghost predicate Positive(limit: Limit) {
    limit.burst > 0 && limit.refill > 0
  }

  function OrDefault(limit: Limit): (l: Limit)
    ensures Positive(l)
    ensures Positive(limit) ==> l == limit
  {
    Limit(
      if limit.burst <= 0 then DEFAULT_BURST else limit.burst,
      if limit.refill <= 0 then DEFAULT_REFILL else limit.refill)
  }

  datatype Bucket = Bucket(tokens: int, lastSeen: Micros)

  type Buckets = map<Caller, Bucket>

  datatype Answer = Answer(allowed: bool, retryAfter: int)

  function Elapsed(b: Bucket, now: Micros): int {
    (now - b.lastSeen) * NANOS_PER_MICRO
  }

  function Earned(b: Bucket, limit: Limit, now: Micros): int
    requires Positive(limit)
  {
    TruncDiv(Elapsed(b, now), limit.refill)
  }

  /** The lazy refill. Adding a duration to an instant drops what is finer than a microsecond. */
  function Refilled(b: Bucket, limit: Limit, now: Micros): Bucket
    requires Positive(limit)
  {
    var earned := Earned(b, limit, now);
    if earned > 0
    then Bucket(
        Min(b.tokens + earned, limit.burst),
        b.lastSeen + TruncDiv(earned * limit.refill, NANOS_PER_MICRO))
    else b
  }

  /** How long until the next token, exactly. */
  function Wait(b: Bucket, limit: Limit, now: Micros): int {
    limit.refill - Elapsed(b, now)
  }

  function Take(b: Bucket, limit: Limit, now: Micros): (Bucket, Answer) {
    if b.tokens <= 0
    then (b, Answer(false, Max(1, TruncDiv(Wait(b, limit, now), NANOS_PER_SECOND))))
    else
      var left := b.tokens - 1;
      (Bucket(left, if left == limit.burst - 1 then now else b.lastSeen), Answer(true, 0))
  }

  /** The bucket an attempt is taken from: refilled, or full for a caller not tracked. */
  function Current(m: Buckets, limit: Limit, caller: Caller, now: Micros): Bucket
    requires Positive(limit)
  {
    if caller in m then Refilled(m[caller], limit, now) else Bucket(limit.burst, now)
  }

  /** One attempt against a limiter that never has to make room. */
  function Attempt(m: Buckets, limit: Limit, caller: Caller, now: Micros): (Buckets, Answer)
    requires Positive(limit)
  {
    var (b, answer) := Take(Current(m, limit, caller, now), limit, now);
    (m[caller := b], answer)
  }

  predicate FullyRefilled(b: Bucket, limit: Limit, now: Micros) {
    Elapsed(b, now) >= limit.refill * limit.burst
  }

  /** The callers still being limited. */
  function Survivors(m: Buckets, limit: Limit, now: Micros): Buckets {
    map c | c in m && !FullyRefilled(m[c], limit, now) :: m[c]
  }

  /** Must room be made before this caller is tracked? */
  predicate Crowded(m: Buckets, maxKeys: nat, caller: Caller) {
    caller !in m && |m| >= maxKeys
  }

  /** Is `dropped` what an eviction may arbitrarily forget: somebody, exactly when all are still limited. */
  ghost predicate MayDrop(
    m: Buckets, limit: Limit, maxKeys: nat, caller: Caller, now: Micros, dropped: Option<Caller>
  ) {
    var left := Survivors(m, limit, now);
    if Crowded(m, maxKeys, caller) && |left| >= maxKeys
    then dropped.Some? && dropped.value in left
    else dropped.None?
  }

  ghost function MakeRoom(
    m: Buckets, limit: Limit, maxKeys: nat, caller: Caller, now: Micros, dropped: Option<Caller>
  ): Buckets {
    if !Crowded(m, maxKeys, caller) then m
    else if dropped.None? then Survivors(m, limit, now)
    else Survivors(m, limit, now) - {dropped.value}
  }

  /** Stored buckets are never full and never owe. */
  ghost predicate InRange(m: Buckets, limit: Limit) {
    forall c :: c in m ==> 0 <= m[c].tokens <= limit.burst - 1
  }

  class Limiter {
    var buckets: Buckets
    const limit: Limit
    const maxKeys: nat

    ghost predicate Valid()
      reads this
    {
      Positive(limit) && maxKeys > 0 && |buckets| <= maxKeys && InRange(buckets, limit)
    }

    constructor (limit: Limit)
      ensures Valid()
      ensures this.limit.burst == if limit.burst > 0 then limit.burst else 10
      ensures this.limit.refill == if limit.refill > 0 then limit.refill else 6_000_000_000
      ensures maxKeys == 4096 && buckets == map[]
    {
      this.limit := OrDefault(limit);
      this.maxKeys := TRACKED_CALLERS;
      this.buckets := map[];
    }

    method Allow(caller: Caller, now: Micros) returns (allowed: bool, retryAfter: int, dropped: Option<Caller>)
      requires Valid()
      modifies this
      ensures Valid()
      ensures MayDrop(old(buckets), limit, maxKeys, caller, now, dropped)
      ensures (buckets, Answer(allowed, retryAfter)) ==
              Attempt(MakeRoom(old(buckets), limit, maxKeys, caller, now, dropped), limit, caller, now)
    {
      dropped := None;
      var state: Bucket;
      if caller !in buckets {
        if |buckets| >= maxKeys {
          dropped := Evict(now);
        }
        state := Bucket(limit.burst, now);
      } else {
        state := buckets[caller];
        var earned := TruncDiv((now - state.lastSeen) * NANOS_PER_MICRO, limit.refill);
        if earned > 0 {
          state := Bucket(
            Min(state.tokens + earned, limit.burst),
            state.lastSeen + TruncDiv(earned * limit.refill, NANOS_PER_MICRO));
        }
      }
      if state.tokens <= 0 {
        buckets := buckets[caller := state];
        var wait := limit.refill - (now - state.lastSeen) * NANOS_PER_MICRO;
        return false, Max(1, TruncDiv(wait, NANOS_PER_SECOND)), dropped;
      }
      state := state.(tokens := state.tokens - 1);
      if state.tokens == limit.burst - 1 {
        state := state.(lastSeen := now);
      }
      MapSize(buckets, caller, state);
      buckets := buckets[caller := state];
      return true, 0, dropped;
    }

    method Evict(now: Micros) returns (dropped: Option<Caller>)
      requires Valid()
      modifies this
      ensures Valid() && |buckets| < maxKeys
      ensures
        var left := Survivors(old(buckets), limit, now);
        if |left| >= maxKeys
        then dropped.Some? && dropped.value in left && buckets == left - {dropped.value}
        else dropped.None? && buckets == left
    {
      var full := limit.refill * limit.burst;
      ghost var before := buckets;
      var keys := buckets.Keys;
      while keys != {}
        invariant keys <= buckets.Keys <= before.Keys
        invariant |buckets| <= maxKeys
        invariant forall c :: c in buckets ==> buckets[c] == before[c]
        invariant forall c :: c in buckets && c !in keys ==> !FullyRefilled(before[c], limit, now)
        invariant forall c :: c in before && c !in buckets ==> FullyRefilled(before[c], limit, now)
        decreases keys
      {
        var key :| key in keys;
        keys := keys - {key};
        if (now - buckets[key].lastSeen) * NANOS_PER_MICRO >= full {
          MapShrinks(buckets, key);
          buckets := buckets - {key};
        }
      }
      assert buckets == Survivors(before, limit, now);
      dropped := None;
      if |buckets| < maxKeys {
        return;
      }
      var key :| key in buckets;
      MapShrinks(buckets, key);
      buckets := buckets - {key};
      dropped := Some(key);
    }
  }

  lemma MapShrinks(m: Buckets, key: Caller)
    requires key in m
    ensures |m - {key}| == |m| - 1
  {
    assert (m - {key}).Keys == m.Keys - {key};
    assert |m - {key}| == |(m - {key}).Keys|;
  }

  lemma MapSize(m: Buckets, key: Caller, b: Bucket)
    ensures |m[key := b]| == if key in m then |m| else |m| + 1
  {
    assert m[key := b].Keys == m.Keys + {key};
    assert |m[key := b]| == |m[key := b].Keys|;
  }
}
