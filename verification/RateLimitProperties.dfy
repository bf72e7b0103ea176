/** How many attempts a caller gets, what a refusal costs, and what forgetting callers changes. */
module RateLimitProperties {
  import opened Core
  import opened RateLimit

  datatype Event = Event(caller: Caller, now: Micros)

  ghost predicate Chronological(events: seq<Event>) {
    forall i, j :: 0 <= i < j < |events| ==> events[i].now <= events[j].now
  }

  /** Attempts served in turn: the maps between them, the answers, and who was forgotten arbitrarily. */
  datatype History = History(maps: seq<Buckets>, answers: seq<Answer>, drops: seq<Option<Caller>>)

  /** `h` is a run of the limiter over `events`, whatever its evictions chose. */
  ghost predicate Run(limit: Limit, maxKeys: nat, events: seq<Event>, h: History)
    requires Positive(limit)
  {
    && |h.maps| == |events| + 1 && |h.answers| == |h.drops| == |events|
    && h.maps[0] == map[]
    && forall k :: 0 <= k < |events| ==> ServedAt(limit, maxKeys, events, h, k)
  }

  ghost predicate ServedAt(limit: Limit, maxKeys: nat, events: seq<Event>, h: History, k: nat)
    requires Positive(limit) && |h.maps| == |events| + 1 && |h.answers| == |h.drops| == |events| && k < |events|
  {
    Served(limit, maxKeys, events[k], h.maps[k], h.maps[k + 1], h.answers[k], h.drops[k])
  }

  /** One call of `Limiter.Allow`. */
  ghost predicate Served(
    limit: Limit, maxKeys: nat, e: Event, before: Buckets, after: Buckets, answer: Answer, dropped: Option<Caller>
  )
    requires Positive(limit)
  {
    && MayDrop(before, limit, maxKeys, e.caller, e.now, dropped)
    && (after, answer) == Attempt(MakeRoom(before, limit, maxKeys, e.caller, e.now, dropped), limit, e.caller, e.now)
  }

  // ---------------------------------------------------------------- one bucket

  ghost predicate Sane(b: Bucket, limit: Limit, now: Micros) {
    0 <= b.tokens <= limit.burst - 1 && b.lastSeen <= now
  }

  /** What a stored bucket becomes, by whether it fills up. */
  lemma ServeCases(b: Bucket, limit: Limit, now: Micros)
    requires Positive(limit) && Sane(b, limit, now)
    ensures
      var earned, (b', answer) := Earned(b, limit, now), Take(Refilled(b, limit, now), limit, now);
      && earned >= 0
      && earned * limit.refill <= Elapsed(b, now) < (earned + 1) * limit.refill
      && (answer.allowed <==> b.tokens + earned > 0)
      && (!answer.allowed ==> b' == b && b.tokens == 0 && earned == 0)
      && (answer.allowed && b.tokens + earned >= limit.burst ==> b' == Bucket(limit.burst - 1, now))
      && (answer.allowed && b.tokens + earned < limit.burst ==>
            b' == Bucket(b.tokens + earned - 1, b.lastSeen + TruncDiv(earned * limit.refill, NANOS_PER_MICRO)))
      && Sane(b', limit, now)
  {
    var earned := Earned(b, limit, now);
    assert Elapsed(b, now) >= 0;
    if earned > 0 {
      var gained := TruncDiv(earned * limit.refill, NANOS_PER_MICRO);
      assert gained * NANOS_PER_MICRO <= Elapsed(b, now);
    } else {
      assert earned == 0 && TruncDiv(0, NANOS_PER_MICRO) == 0;
    }
  }

  /** A refused attempt leaves the bucket exactly as it was, so refusals never delay readmission. */
  lemma RefusalIsFree(m: Buckets, limit: Limit, caller: Caller, now: Micros)
    requires Positive(limit) && (caller in m ==> Sane(m[caller], limit, now))
    ensures
      var (m', answer) := Attempt(m, limit, caller, now);
      !answer.allowed ==> caller in m && m' == m
  {
    if caller in m {
      ServeCases(m[caller], limit, now);
    }
  }

  /** An untouched bucket that refuses has a token at or after the exact wait, and not before. */
  lemma AdmittedAfterExactWait(b: Bucket, limit: Limit, now: Micros, later: Micros)
    requires Positive(limit) && Sane(b, limit, now) && now <= later
    requires !Take(Refilled(b, limit, now), limit, now).1.allowed
    ensures Take(Refilled(b, limit, later), limit, later).1.allowed
            <==> (later - now) * NANOS_PER_MICRO >= Wait(b, limit, now)
  {
    ServeCases(b, limit, now);
    ServeCases(b, limit, later);
    var earned := Earned(b, limit, later);
    if earned == 0 {
      assert (earned + 1) * limit.refill == limit.refill;
    } else {
      ScaleMonotone(1, earned, limit.refill);
    }
  }

  /** The advertised wait is whole seconds rounded down, so it suffices only when nothing was cut off. */
  lemma AdvertisedWaitSuffices(b: Bucket, limit: Limit, now: Micros)
    requires Positive(limit) && Sane(b, limit, now)
    requires !Take(Refilled(b, limit, now), limit, now).1.allowed
    ensures
      var later := now + Take(Refilled(b, limit, now), limit, now).1.retryAfter * MICROS_PER_SECOND;
      Take(Refilled(b, limit, later), limit, later).1.allowed
      <==> Wait(b, limit, now) <= NANOS_PER_SECOND || Wait(b, limit, now) % NANOS_PER_SECOND == 0
  {
    ServeCases(b, limit, now);
    var wait := Wait(b, limit, now);
    assert Elapsed(b, now) < (0 + 1) * limit.refill;
    assert wait > 0;
    var seconds := Max(1, TruncDiv(wait, NANOS_PER_SECOND));
    AdmittedAfterExactWait(b, limit, now, now + seconds * MICROS_PER_SECOND);
    assert (now + seconds * MICROS_PER_SECOND - now) * NANOS_PER_MICRO == seconds * NANOS_PER_SECOND;
  }

  /** At one token every second and a half, the second advertised is half a second short. */
  lemma AdvertisedWaitFallsShort(limit: Limit, b: Bucket)
    requires limit == Limit(1, 1_500_000_000) && b == Bucket(0, 0)
    ensures Take(Refilled(b, limit, 0), limit, 0).1 == Answer(false, 1)
    ensures !Take(Refilled(b, limit, MICROS_PER_SECOND), limit, MICROS_PER_SECOND).1.allowed
  {
    assert Earned(b, limit, 0) == 0;
    assert Wait(b, limit, 0) == 1_500_000_000;
    AdvertisedWaitSuffices(b, limit, 0);
  }

  // ---------------------------------------------------------------- the rate bound

  /** Limits whose refill arithmetic loses nothing to the microsecond clock. */
  predicate Exact(limit: Limit)
    requires limit.refill > 0
  {
    || limit.refill % NANOS_PER_MICRO == 0
    || NANOS_PER_MICRO % limit.refill == 0
    || limit.burst == 1
    || limit.burst * limit.refill <= NANOS_PER_MICRO
  }

  /** What a caller could still spend, in nanoseconds of refill. */
  function Credit(m: Buckets, limit: Limit, caller: Caller, now: Micros): int {
    var cap := limit.burst * limit.refill;
    if caller in m then Min(cap, m[caller].tokens * limit.refill + Elapsed(m[caller], now)) else cap
  }

  /** Under an exact limit a partial refill spends whole microseconds. */
  lemma ExactRefill(b: Bucket, limit: Limit, now: Micros)
    requires Positive(limit) && Exact(limit) && Sane(b, limit, now)
    requires 0 < Earned(b, limit, now) < limit.burst - b.tokens
    ensures TruncDiv(Earned(b, limit, now) * limit.refill, NANOS_PER_MICRO) * NANOS_PER_MICRO
            == Earned(b, limit, now) * limit.refill
  {
    ServeCases(b, limit, now);
    var earned, micros := Earned(b, limit, now), now - b.lastSeen;
    if limit.refill % NANOS_PER_MICRO == 0 {
      WholeMultiple(earned, limit.refill);
    } else if NANOS_PER_MICRO % limit.refill == 0 {
      var each := NANOS_PER_MICRO / limit.refill;
      assert Elapsed(b, now) == micros * each * limit.refill by {
        assert each * limit.refill == NANOS_PER_MICRO;
        Regroup(micros, each, limit.refill);
      }
      assert earned == micros * each by {
        CancelFactor(earned, micros * each + 1, limit.refill);
        CancelFactor(micros * each, earned + 1, limit.refill);
      }
    } else if limit.burst != 1 {
      FillsAtOnce(b, limit, now);
    }
  }

  lemma WholeMultiple(n: int, unit: int)
    requires n >= 0 && unit > 0 && unit % NANOS_PER_MICRO == 0
    ensures TruncDiv(n * unit, NANOS_PER_MICRO) * NANOS_PER_MICRO == n * unit
  {
    var micros := unit / NANOS_PER_MICRO;
    assert unit == micros * NANOS_PER_MICRO;
    Regroup(n, micros, NANOS_PER_MICRO);
    ExactQuotient(n * micros, NANOS_PER_MICRO);
  }

  lemma Regroup(a: int, b: int, c: int)
    ensures a * (b * c) == (a * b) * c
  {
  }

  lemma ExactQuotient(q: int, d: int)
    requires q >= 0 && d > 0
    ensures TruncDiv(q * d, d) == q
  {
    var p := TruncDiv(q * d, d);
    CancelFactor(q, p + 1, d);
    CancelFactor(p, q + 1, d);
  }

  /** A bucket smaller than a microsecond's worth of refill fills up in one. */
  lemma FillsAtOnce(b: Bucket, limit: Limit, now: Micros)
    requires Positive(limit) && Sane(b, limit, now)
    requires limit.burst * limit.refill <= NANOS_PER_MICRO && Earned(b, limit, now) > 0
    ensures Earned(b, limit, now) >= limit.burst
  {
    ServeCases(b, limit, now);
    var earned := Earned(b, limit, now);
    ScaleMonotone(1, earned, limit.refill);
    assert Elapsed(b, now) >= NANOS_PER_MICRO;
    CancelFactor(limit.burst, earned + 1, limit.refill);
  }

  /** An admission costs the caller one refill of credit; a refusal costs nothing. */
  lemma AdmissionCosts(m: Buckets, limit: Limit, caller: Caller, now: Micros)
    requires Positive(limit) && Exact(limit) && (caller in m ==> Sane(m[caller], limit, now))
    ensures
      var (m', answer) := Attempt(m, limit, caller, now);
      Credit(m', limit, caller, now) <= Credit(m, limit, caller, now) - if answer.allowed then limit.refill else 0
  {
    var (m', answer) := Attempt(m, limit, caller, now);
    Distribute(limit.burst - 1, 1, limit.refill);
    if caller in m {
      var b := m[caller];
      var earned := Earned(b, limit, now);
      ServeCases(b, limit, now);
      if answer.allowed && b.tokens + earned >= limit.burst {
        ScaleMonotone(limit.burst, b.tokens + earned, limit.refill);
        Distribute(b.tokens, earned, limit.refill);
      } else if answer.allowed {
        if earned > 0 {
          ExactRefill(b, limit, now);
        }
        Distribute(b.tokens + earned, -1, limit.refill);
        Distribute(b.tokens, earned, limit.refill);
        Distribute(b.tokens + earned, 1, limit.refill);
        Distribute(earned, 1, limit.refill);
        ScaleMonotone(b.tokens + earned + 1, limit.burst, limit.refill);
      }
    }
  }

  /** Forgetting a fully refilled caller gives nothing away, and nobody else's credit moves. */
  lemma ForgettingIsFree(
    m: Buckets, limit: Limit, maxKeys: nat, other: Caller, caller: Caller, now: Micros, dropped: Option<Caller>
  )
    requires Positive(limit) && MayDrop(m, limit, maxKeys, other, now, dropped) && dropped != Some(caller)
    requires caller in m ==> Sane(m[caller], limit, now)
    ensures Credit(MakeRoom(m, limit, maxKeys, other, now, dropped), limit, caller, now) ==
            Credit(m, limit, caller, now)
  {
    if caller in m && FullyRefilled(m[caller], limit, now) {
      ScaleMonotone(0, m[caller].tokens, limit.refill);
    }
  }

  ghost predicate AllSane(m: Buckets, limit: Limit, now: Micros) {
    forall c :: c in m ==> Sane(m[c], limit, now)
  }

  lemma ServedStaysSane(
    limit: Limit, maxKeys: nat, e: Event, before: Buckets, after: Buckets, answer: Answer, dropped: Option<Caller>
  )
    requires Positive(limit) && Served(limit, maxKeys, e, before, after, answer, dropped)
    requires AllSane(before, limit, e.now)
    ensures AllSane(after, limit, e.now)
  {
    var room := MakeRoom(before, limit, maxKeys, e.caller, e.now, dropped);
    if e.caller in room {
      ServeCases(room[e.caller], limit, e.now);
    }
  }

  /** Stored tokens stay between none and one short of full, throughout every run. */
  lemma {:induction false} RunStaysSane(limit: Limit, maxKeys: nat, events: seq<Event>, h: History, k: nat)
    requires Positive(limit) && Run(limit, maxKeys, events, h) && Chronological(events) && k <= |events|
    ensures InRange(h.maps[k], limit)
    ensures forall now :: (k > 0 ==> events[k - 1].now <= now) ==> AllSane(h.maps[k], limit, now)
  {
    if k == 0 {
    } else {
      RunStaysSane(limit, maxKeys, events, h, k - 1);
      assert ServedAt(limit, maxKeys, events, h, k - 1);
      assert k > 1 ==> events[k - 2].now <= events[k - 1].now;
      ServedStaysSane(limit, maxKeys, events[k - 1], h.maps[k - 1], h.maps[k], h.answers[k - 1], h.drops[k - 1]);
    }
  }

  /** The arbitrary drop never falls on this caller during `i..j`. */
  ghost predicate Kept(h: History, caller: Caller, i: nat, j: nat)
    requires j <= |h.drops|
  {
    forall k :: i <= k < j ==> h.drops[k] != Some(caller)
  }

  /**
   * Whom an eviction forgets: those out of play for as long as a full bucket takes to earn, and the one arbitrarily
   * dropped, which there is exactly when the others still fill the map.
   */
  lemma ForgottenExactly(
    m: Buckets, limit: Limit, maxKeys: nat, newcomer: Caller, now: Micros, dropped: Option<Caller>, c: Caller
  )
    requires newcomer !in m && |m| >= maxKeys && MayDrop(m, limit, maxKeys, newcomer, now, dropped) && c in m
    ensures c !in MakeRoom(m, limit, maxKeys, newcomer, now, dropped) <==>
              (now - m[c].lastSeen) * 1000 >= limit.refill * limit.burst || dropped == Some(c)
    ensures
      var limited := set k | k in m && (now - m[k].lastSeen) * 1000 < limit.refill * limit.burst;
      dropped.Some? <==> |limited| >= maxKeys
  {
    var limited := set k | k in m && (now - m[k].lastSeen) * 1000 < limit.refill * limit.burst;
    assert limited == Survivors(m, limit, now).Keys;
    assert |Survivors(m, limit, now).Keys| == |Survivors(m, limit, now)|;
  }

  // ---------------------------------------------------------------- when a refused caller is next admitted

  /** Every attempt of this caller's after `i` and before `j` was refused. */
  ghost predicate OnlyRefused(events: seq<Event>, h: History, caller: Caller, i: nat, j: nat)
    requires j <= |events| == |h.answers|
  {
    forall k :: i < k < j && events[k].caller == caller ==> !h.answers[k].allowed
  }

  /** Since attempt `i` left `b`: still there untouched, or forgotten, by a drop or because it had filled up again. */
  ghost predicate Waits(
    limit: Limit, events: seq<Event>, h: History, caller: Caller, i: nat, k: nat, b: Bucket
  )
    requires i < k <= |events| && |h.maps| == |events| + 1 && |h.drops| == |events|
  {
    if caller in h.maps[k] then h.maps[k][caller] == b && Kept(h, caller, i + 1, k)
    else !Kept(h, caller, i + 1, k) || FullyRefilled(b, limit, events[k - 1].now)
  }

  /** A refused attempt leaves the map as it found it, this caller in it. */
  lemma RefusedAt(limit: Limit, maxKeys: nat, events: seq<Event>, h: History, k: nat)
    requires Positive(limit) && Run(limit, maxKeys, events, h) && Chronological(events)
    requires k < |events| && !h.answers[k].allowed
    ensures events[k].caller in h.maps[k] && h.maps[k + 1] == h.maps[k] && h.drops[k].None?
    ensures Sane(h.maps[k][events[k].caller], limit, events[k].now)
    ensures !Take(Refilled(h.maps[k][events[k].caller], limit, events[k].now), limit, events[k].now).1.allowed
  {
    var e := events[k];
    RunStaysSane(limit, maxKeys, events, h, k);
    assert k > 0 ==> events[k - 1].now <= e.now;
    assert ServedAt(limit, maxKeys, events, h, k);
    assert AllSane(h.maps[k], limit, e.now);
    RefusalIsFree(MakeRoom(h.maps[k], limit, maxKeys, e.caller, e.now, h.drops[k]), limit, e.caller, e.now);
  }

  lemma WaitsOneMore(
    limit: Limit, maxKeys: nat, events: seq<Event>, h: History, caller: Caller, i: nat, k: nat, b: Bucket
  )
    requires Positive(limit) && Run(limit, maxKeys, events, h) && Chronological(events)
    requires i < k < |events| && OnlyRefused(events, h, caller, i, k + 1) && Waits(limit, events, h, caller, i, k, b)
    ensures Waits(limit, events, h, caller, i, k + 1, b)
  {
    var e := events[k];
    assert events[k - 1].now <= e.now;
    assert ServedAt(limit, maxKeys, events, h, k);
    assert Kept(h, caller, i + 1, k + 1) <==> Kept(h, caller, i + 1, k) && h.drops[k] != Some(caller);
    if e.caller == caller {
      RefusedAt(limit, maxKeys, events, h, k);
    }
  }

  lemma {:induction false} StillWaits(
    limit: Limit, maxKeys: nat, events: seq<Event>, h: History, caller: Caller, i: nat, k: nat, b: Bucket
  )
    requires Positive(limit) && Run(limit, maxKeys, events, h) && Chronological(events)
    requires i < k <= |events| && OnlyRefused(events, h, caller, i, k)
    requires caller in h.maps[i + 1] && h.maps[i + 1][caller] == b
    ensures Waits(limit, events, h, caller, i, k, b)
  {
    if k == i + 1 {
    } else {
      StillWaits(limit, maxKeys, events, h, caller, i, k - 1, b);
      WaitsOneMore(limit, maxKeys, events, h, caller, i, k - 1, b);
    }
  }

  /**
   * When a refused caller is next admitted, whatever it and the others try in between: at the first attempt at or
   * after the exact wait, or at the first one after an arbitrary drop of it, and at no attempt before.
   */
  lemma ReadmittedExactly(
    limit: Limit, maxKeys: nat, events: seq<Event>, h: History, caller: Caller, i: nat, j: nat
  )
    requires Positive(limit) && Run(limit, maxKeys, events, h) && Chronological(events)
    requires i < j < |events| && events[i].caller == events[j].caller == caller
    requires !h.answers[i].allowed && OnlyRefused(events, h, caller, i, j)
    ensures caller in h.maps[i + 1]
    ensures h.answers[j].allowed <==>
              || (events[j].now - h.maps[i + 1][caller].lastSeen) * 1000 >= limit.refill
              || !Kept(h, caller, i + 1, j)
  {
    RefusedAt(limit, maxKeys, events, h, i);
    var b, now, later := h.maps[i + 1][caller], events[i].now, events[j].now;
    StillWaits(limit, maxKeys, events, h, caller, i, j, b);
    assert now <= later;
    assert ServedAt(limit, maxKeys, events, h, j);
    if caller in h.maps[j] {
      AdmittedAfterExactWait(b, limit, now, later);
    } else if Kept(h, caller, i + 1, j) {
      assert events[j - 1].now <= later;
      ScaleMonotone(1, limit.burst, limit.refill);
      assert Elapsed(b, later) >= limit.refill;
    }
  }

  /** How many of the attempts `i..j` were this caller's and were admitted. */
  function Admitted(events: seq<Event>, answers: seq<Answer>, caller: Caller, i: nat, j: nat): nat
    requires i <= j <= |events| && |answers| == |events|
  {
    if i == j then 0
    else
      Admitted(events, answers, caller, i, j - 1) +
      if events[j - 1].caller == caller && answers[j - 1].allowed then 1 else 0
  }

  /** How many of the attempts `i..j` made room by arbitrarily forgetting this caller. */
  function Drops(drops: seq<Option<Caller>>, caller: Caller, i: nat, j: nat): nat
    requires i <= j <= |drops|
  {
    if i == j then 0 else Drops(drops, caller, i, j - 1) + if drops[j - 1] == Some(caller) then 1 else 0
  }

  lemma {:induction false} KeptIsNoDrops(h: History, caller: Caller, i: nat, j: nat)
    requires i <= j <= |h.drops|
    ensures Kept(h, caller, i, j) <==> Drops(h.drops, caller, i, j) == 0
  {
    if i == j {
    } else {
      KeptIsNoDrops(h, caller, i, j - 1);
      assert Kept(h, caller, i, j) <==> Kept(h, caller, i, j - 1) && h.drops[j - 1] != Some(caller);
    }
  }

  /** One attempt, over the state it found and the state it left; being dropped hands back a full bucket. */
  lemma AttemptAccounts(
    limit: Limit, maxKeys: nat, events: seq<Event>, h: History, caller: Caller, k: nat
  )
    requires Positive(limit) && Exact(limit) && Run(limit, maxKeys, events, h) && Chronological(events)
    requires k < |events|
    ensures Charges(Found(limit, events, h, caller), Left(limit, events, h, caller), events, h, caller, limit, k)
  {
    RunStaysSane(limit, maxKeys, events, h, k);
    assert k > 0 ==> events[k - 1].now <= events[k].now;
    assert ServedAt(limit, maxKeys, events, h, k);
    var e := events[k];
    if h.drops[k] == Some(caller) {
      assert AllSane(h.maps[k], limit, e.now);
      CreditIsNotDebt(h.maps[k], limit, caller, e.now);
      DroppedIsAStranger(limit, maxKeys, e, h.maps[k], h.maps[k + 1], h.answers[k], caller);
    } else {
      ServiceCosts(limit, maxKeys, e, h.maps[k], h.maps[k + 1], h.answers[k], h.drops[k], caller);
    }
  }

  /** Only somebody tracked is dropped, to make room for somebody who was not, and from then on is. */
  lemma DroppedIsAStranger(
    limit: Limit, maxKeys: nat, e: Event, before: Buckets, after: Buckets, answer: Answer, caller: Caller
  )
    requires Positive(limit) && Served(limit, maxKeys, e, before, after, answer, Some(caller))
    ensures e.caller != caller && caller in before && caller !in after
    ensures e.caller !in before && e.caller in after && answer.allowed
  {
  }

  /** Attempt `k` leaves what it found, less the price of an admission, plus a full bucket if dropped. */
  ghost predicate Charges(
    found: seq<int>, left: seq<int>, events: seq<Event>, h: History, caller: Caller, limit: Limit, k: nat
  )
    requires k < |events| == |found| == |left| == |h.answers| == |h.drops|
  {
    && (h.drops[k] == Some(caller) ==> events[k].caller != caller && left[k] <= found[k] + limit.burst * limit.refill)
    && (h.drops[k] != Some(caller) ==>
          left[k] <= found[k] - if events[k].caller == caller && h.answers[k].allowed then limit.refill else 0)
  }

  /** Attempt `k` finds what the one before left, plus at most the time between them. */
  ghost predicate Accrues(found: seq<int>, left: seq<int>, events: seq<Event>, k: nat)
    requires 0 < k < |events| == |found| == |left|
  {
    found[k] <= left[k - 1] + (events[k].now - events[k - 1].now) * NANOS_PER_MICRO
  }

  /** Spending that never exceeds what is found, over income of time passing and of buckets handed back. */
  lemma {:induction false} Ledger(
    found: seq<int>, left: seq<int>, events: seq<Event>, h: History, caller: Caller, limit: Limit, i: nat, j: nat
  )
    requires i < j <= |events| == |found| == |left| == |h.answers| == |h.drops|
    requires found[i] <= limit.burst * limit.refill
    requires forall k :: i <= k < j ==> Charges(found, left, events, h, caller, limit, k)
    requires forall k :: i < k < j ==> Accrues(found, left, events, k)
    ensures Admitted(events, h.answers, caller, i, j) * limit.refill + left[j - 1]
            <= (1 + Drops(h.drops, caller, i, j)) * (limit.burst * limit.refill)
               + (events[j - 1].now - events[i].now) * NANOS_PER_MICRO
  {
    var n, cap := j - 1, limit.burst * limit.refill;
    assert Charges(found, left, events, h, caller, limit, n);
    if i == n {
      assert Admitted(events, h.answers, caller, i, i) == 0 && Drops(h.drops, caller, i, i) == 0;
    } else {
      Ledger(found, left, events, h, caller, limit, i, n);
      assert Accrues(found, left, events, n);
      Distribute(Admitted(events, h.answers, caller, i, n), 1, limit.refill);
      Distribute(1 + Drops(h.drops, caller, i, n), 1, cap);
    }
  }

  lemma ServiceCosts(
    limit: Limit, maxKeys: nat, e: Event, before: Buckets, after: Buckets, answer: Answer, dropped: Option<Caller>,
    caller: Caller
  )
    requires Positive(limit) && Exact(limit) && Served(limit, maxKeys, e, before, after, answer, dropped)
    requires AllSane(before, limit, e.now) && dropped != Some(caller)
    ensures Credit(after, limit, caller, e.now)
            <= Credit(before, limit, caller, e.now) - if e.caller == caller && answer.allowed then limit.refill else 0
  {
    ForgettingIsFree(before, limit, maxKeys, e.caller, caller, e.now, dropped);
    if e.caller == caller {
      AdmissionCosts(MakeRoom(before, limit, maxKeys, e.caller, e.now, dropped), limit, caller, e.now);
    }
  }

  lemma CreditGrows(m: Buckets, limit: Limit, caller: Caller, now: Micros, later: Micros)
    requires now <= later
    ensures Credit(m, limit, caller, later) <= Credit(m, limit, caller, now) + (later - now) * NANOS_PER_MICRO
  {
  }

  lemma AdmittedWorth(
    limit: Limit, maxKeys: nat, events: seq<Event>, h: History, caller: Caller, i: nat, j: nat
  )
    requires Positive(limit) && Exact(limit) && Run(limit, maxKeys, events, h) && Chronological(events)
    requires i < j <= |events|
    ensures Admitted(events, h.answers, caller, i, j) * limit.refill
            <= (1 + Drops(h.drops, caller, i, j)) * (limit.burst * limit.refill)
               + (events[j - 1].now - events[i].now) * NANOS_PER_MICRO
  {
    var found, left := Found(limit, events, h, caller), Left(limit, events, h, caller);
    AttemptsCost(limit, maxKeys, events, h, caller, found, left, i, j);
    TimePays(limit, events, h, caller, found, left);
    FoundIsCapped(limit, events, h, caller, i);
    Ledger(found, left, events, h, caller, limit, i, j);
    LeftIsNotDebt(limit, maxKeys, events, h, caller, j);
  }

  lemma FoundIsCapped(limit: Limit, events: seq<Event>, h: History, caller: Caller, i: nat)
    requires |h.maps| == |events| + 1 && i < |events|
    ensures Found(limit, events, h, caller)[i] <= limit.burst * limit.refill
  {
  }

  lemma LeftIsNotDebt(limit: Limit, maxKeys: nat, events: seq<Event>, h: History, caller: Caller, j: nat)
    requires Positive(limit) && Run(limit, maxKeys, events, h) && Chronological(events) && 0 < j <= |events|
    ensures Credit(h.maps[j], limit, caller, events[j - 1].now) >= 0
  {
    RunStaysSane(limit, maxKeys, events, h, j);
    assert AllSane(h.maps[j], limit, events[j - 1].now);
    CreditIsNotDebt(h.maps[j], limit, caller, events[j - 1].now);
  }

  /** The caller's credit as each attempt finds it, and as it leaves it. */
  ghost function Found(limit: Limit, events: seq<Event>, h: History, caller: Caller): (s: seq<int>)
    requires |h.maps| == |events| + 1
    ensures |s| == |events|
  {
    seq(|events|, k requires 0 <= k < |events| => Credit(h.maps[k], limit, caller, events[k].now))
  }

  ghost function Left(limit: Limit, events: seq<Event>, h: History, caller: Caller): (s: seq<int>)
    requires |h.maps| == |events| + 1
    ensures |s| == |events|
  {
    seq(|events|, k requires 0 <= k < |events| => Credit(h.maps[k + 1], limit, caller, events[k].now))
  }

  lemma AttemptsCost(
    limit: Limit, maxKeys: nat, events: seq<Event>, h: History, caller: Caller, found: seq<int>, left: seq<int>,
    i: nat, j: nat
  )
    requires Positive(limit) && Exact(limit) && Run(limit, maxKeys, events, h) && Chronological(events)
    requires found == Found(limit, events, h, caller) && left == Left(limit, events, h, caller) && j <= |events|
    ensures forall k :: i <= k < j ==> Charges(found, left, events, h, caller, limit, k)
  {
    forall k | i <= k < j ensures Charges(found, left, events, h, caller, limit, k) {
      AttemptAccounts(limit, maxKeys, events, h, caller, k);
    }
  }

  lemma TimePays(
    limit: Limit, events: seq<Event>, h: History, caller: Caller, found: seq<int>, left: seq<int>
  )
    requires |h.maps| == |events| + 1 && Chronological(events)
    requires found == Found(limit, events, h, caller) && left == Left(limit, events, h, caller)
    ensures forall k :: 0 < k < |events| ==> Accrues(found, left, events, k)
  {
    forall k | 0 < k < |events| ensures Accrues(found, left, events, k) {
      CreditGrows(h.maps[k], limit, caller, events[k - 1].now, events[k].now);
    }
  }

  /**
   * The rate bound. Over any stretch of any run, a caller is admitted at most Burst plus one per Refill
   * elapsed, plus one more Burst each time it was arbitrarily forgotten in that stretch.
   */
  lemma {:induction false} RateBound(
    limit: Limit, maxKeys: nat, events: seq<Event>, h: History, caller: Caller, i: nat, j: nat, from: Micros, to: Micros
  )
    requires Positive(limit) && Exact(limit) && Run(limit, maxKeys, events, h) && Chronological(events)
    requires i <= j <= |events|
    requires from <= to && forall k :: i <= k < j ==> from <= events[k].now <= to
    ensures Admitted(events, h.answers, caller, i, j)
            <= AllowedBy(limit, to - from) + limit.burst * Drops(h.drops, caller, i, j)
  {
    if i < j {
      AdmittedWorth(limit, maxKeys, events, h, caller, i, j);
      WorthAllowed(
        limit, Admitted(events, h.answers, caller, i, j), Drops(h.drops, caller, i, j),
        events[j - 1].now - events[i].now, to - from);
    } else {
      ScaleMonotone(0, limit.burst, limit.refill);
      WorthAllowed(limit, 0, 0, 0, to - from);
    }
  }

  /** From what admissions are worth to how many there can be. */
  lemma WorthAllowed(limit: Limit, admitted: nat, drops: nat, part: Micros, interval: Micros)
    requires Positive(limit) && part <= interval
    requires admitted * limit.refill <= (1 + drops) * (limit.burst * limit.refill) + part * NANOS_PER_MICRO
    ensures admitted <= AllowedBy(limit, interval) + limit.burst * drops
  {
    Regroup(1 + drops, limit.burst, limit.refill);
    Distribute(1, drops, limit.burst);
    FloorAtLeast(
      admitted, (1 + drops) * limit.burst, part * NANOS_PER_MICRO, interval * NANOS_PER_MICRO, limit.refill);
  }

  /** Burst, plus one for every whole Refill in the interval. */
  function AllowedBy(limit: Limit, interval: Micros): int
    requires limit.refill > 0
  {
    limit.burst + interval * NANOS_PER_MICRO / limit.refill
  }

  lemma CreditIsNotDebt(m: Buckets, limit: Limit, caller: Caller, now: Micros)
    requires Positive(limit) && AllSane(m, limit, now)
    ensures Credit(m, limit, caller, now) >= 0
  {
    ScaleMonotone(0, limit.burst, limit.refill);
    if caller in m {
      ScaleMonotone(0, m[caller].tokens, limit.refill);
    }
  }

  lemma FloorAtLeast(n: int, burst: int, part: int, total: int, unit: int)
    requires unit > 0 && n * unit <= burst * unit + part && part <= total
    ensures n <= burst + total / unit
  {
    var q := total / unit;
    assert total < q * unit + unit;
    assert (burst + q + 1) * unit == burst * unit + q * unit + unit;
    CancelFactor(n, burst + q + 1, unit);
  }

  // ---------------------------------------------------------------- bounded memory

  /** `few` remembers what `all` does, except callers that have fully refilled. */
  ghost predicate Forgets(few: Buckets, all: Buckets, limit: Limit, now: Micros) {
    && (forall c :: c in few ==> c in all && few[c] == all[c])
    && forall c :: c in all && c !in few ==> FullyRefilled(all[c], limit, now)
  }

  /** A fully refilled caller is answered, and left, exactly as a stranger is. */
  lemma RefilledIsAStranger(b: Bucket, limit: Limit, now: Micros)
    requires Positive(limit) && Sane(b, limit, now) && FullyRefilled(b, limit, now)
    ensures Take(Refilled(b, limit, now), limit, now) == Take(Bucket(limit.burst, now), limit, now)
  {
    ServeCases(b, limit, now);
    CancelFactor(limit.burst, Earned(b, limit, now) + 1, limit.refill);
  }

  lemma AttemptForgets(few: Buckets, all: Buckets, limit: Limit, maxKeys: nat, e: Event)
    requires Positive(limit) && AllSane(all, limit, e.now) && Forgets(few, all, limit, e.now)
    ensures
      var (few', a) := Attempt(MakeRoom(few, limit, maxKeys, e.caller, e.now, None), limit, e.caller, e.now);
      var (all', b) := Attempt(all, limit, e.caller, e.now);
      a == b && Forgets(few', all', limit, e.now)
  {
    if e.caller in all && e.caller !in few {
      RefilledIsAStranger(all[e.caller], limit, e.now);
    }
  }

  /** The limiter that forgets nobody. */
  function Remembered(limit: Limit, events: seq<Event>): Buckets
    requires Positive(limit)
  {
    if events == [] then map[]
    else
      var e := events[|events| - 1];
      Attempt(Remembered(limit, events[..|events| - 1]), limit, e.caller, e.now).0
  }

  function AnswerRemembering(limit: Limit, events: seq<Event>, k: nat): Answer
    requires Positive(limit) && k < |events|
  {
    Attempt(Remembered(limit, events[..k]), limit, events[k].caller, events[k].now).1
  }

  lemma {:induction false} MemoriesAgree(limit: Limit, maxKeys: nat, events: seq<Event>, h: History, k: nat)
    requires Positive(limit) && Run(limit, maxKeys, events, h) && Chronological(events) && k <= |events|
    requires forall i :: 0 <= i < k ==> h.drops[i].None?
    ensures forall now :: (k > 0 ==> events[k - 1].now <= now) ==>
              AllSane(Remembered(limit, events[..k]), limit, now) &&
              Forgets(h.maps[k], Remembered(limit, events[..k]), limit, now)
  {
    if k == 0 {
    } else {
      var e, n := events[k - 1], k - 1;
      MemoriesAgree(limit, maxKeys, events, h, n);
      assert n > 0 ==> events[n - 1].now <= e.now;
      assert events[..k][..n] == events[..n];
      var all := Remembered(limit, events[..n]);
      assert Forgets(h.maps[n], all, limit, e.now) && AllSane(all, limit, e.now);
      assert ServedAt(limit, maxKeys, events, h, n);
      AttemptForgets(h.maps[n], all, limit, maxKeys, e);
      if e.caller in all {
        ServeCases(all[e.caller], limit, e.now);
      }
      forall now | e.now <= now
        ensures AllSane(Remembered(limit, events[..k]), limit, now)
        ensures Forgets(h.maps[k], Remembered(limit, events[..k]), limit, now)
      {
      }
    }
  }

  /**
   * Forgetting refilled callers is invisible: up to and including the attempt at which somebody still
   * limited is first dropped, every answer and every wait is that of a limiter that forgets nobody.
   */
  lemma EvictionInvisible(limit: Limit, maxKeys: nat, events: seq<Event>, h: History, k: nat)
    requires Positive(limit) && Run(limit, maxKeys, events, h) && Chronological(events) && k < |events|
    requires forall i :: 0 <= i < k ==> h.drops[i].None?
    ensures h.answers[k] == AnswerRemembering(limit, events, k)
  {
    var e := events[k];
    MemoriesAgree(limit, maxKeys, events, h, k);
    assert k > 0 ==> events[k - 1].now <= e.now;
    var all := Remembered(limit, events[..k]);
    assert Forgets(h.maps[k], all, limit, e.now) && AllSane(all, limit, e.now);
    assert ServedAt(limit, maxKeys, events, h, k);
    AttemptForgets(h.maps[k], all, limit, maxKeys, e);
  }

  /** The map never exceeds its bound, in any run. */
  lemma {:induction false} MemoryBounded(limit: Limit, maxKeys: nat, events: seq<Event>, h: History, k: nat)
    requires Positive(limit) && maxKeys > 0 && Run(limit, maxKeys, events, h) && k <= |events|
    ensures |h.maps[k]| <= maxKeys
  {
    if k == 0 {
    } else {
      var e, before, dropped := events[k - 1], h.maps[k - 1], h.drops[k - 1];
      MemoryBounded(limit, maxKeys, events, h, k - 1);
      assert ServedAt(limit, maxKeys, events, h, k - 1);
      var room := MakeRoom(before, limit, maxKeys, e.caller, e.now, dropped);
      if Crowded(before, maxKeys, e.caller) {
        SurvivorsShrink(before, limit, e.now);
        if dropped.Some? {
          MapShrinks(Survivors(before, limit, e.now), dropped.value);
        }
      }
      MapSize(room, e.caller, h.maps[k][e.caller]);
      assert h.maps[k] == room[e.caller := h.maps[k][e.caller]];
    }
  }

  lemma SurvivorsShrink(m: Buckets, limit: Limit, now: Micros)
    ensures |Survivors(m, limit, now)| <= |m|
  {
    SubsetSize(Survivors(m, limit, now).Keys, m.Keys);
    assert |Survivors(m, limit, now).Keys| == |Survivors(m, limit, now)| && |m.Keys| == |m|;
  }
}
