/** The rate bound holds for exactly the limits the microsecond clock can account for. */
module RateLimitSharpness {
  import opened Core
  import opened RateLimit
  import opened RateLimitProperties

  const ME: Caller := "caller"

  /** One caller, at the given instants, against a limiter with room for it. */
  function Solo(times: seq<Micros>): (events: seq<Event>)
    ensures |events| == |times|
  {
    seq(|times|, k requires 0 <= k < |times| => Event(ME, times[k]))
  }

  ghost function SoloHistory(limit: Limit, times: seq<Micros>): History
    requires Positive(limit)
  {
    var events := Solo(times);
    History(
      seq(|times| + 1, k requires 0 <= k <= |times| => Remembered(limit, events[..k])),
      seq(|times|, k requires 0 <= k < |times| => AnswerRemembering(limit, events, k)),
      seq(|times|, k requires 0 <= k < |times| => None))
  }

  lemma SoloStep(limit: Limit, times: seq<Micros>, k: nat)
    requires Positive(limit) && k < |times|
    ensures
      var events := Solo(times);
      && (Remembered(limit, events[..k + 1]), AnswerRemembering(limit, events, k)) ==
         Attempt(Remembered(limit, events[..k]), limit, ME, times[k])
      && ME in Remembered(limit, events[..k + 1])
      && Remembered(limit, events[..0]) == map[]
  {
    var events := Solo(times);
    assert events[..k + 1][..k] == events[..k];
  }

  lemma SoloRuns(limit: Limit, maxKeys: nat, times: seq<Micros>)
    requires Positive(limit) && maxKeys > 0
    ensures Run(limit, maxKeys, Solo(times), SoloHistory(limit, times))
    ensures Kept(SoloHistory(limit, times), ME, 0, |times|)
  {
    var events, h := Solo(times), SoloHistory(limit, times);
    assert events[..0] == [];
    forall k | 0 <= k < |events| ensures ServedAt(limit, maxKeys, events, h, k) {
      SoloStep(limit, times, k);
      if k > 0 {
        SoloStep(limit, times, k - 1);
      }
    }
  }

  lemma {:induction false} AllAdmitted(events: seq<Event>, answers: seq<Answer>, j: nat)
    requires j <= |events| == |answers|
    requires forall k :: 0 <= k < j ==> events[k].caller == ME && answers[k].allowed
    ensures Admitted(events, answers, ME, 0, j) == j
  {
    if j == 0 {
    } else {
      AllAdmitted(events, answers, j - 1);
    }
  }

  /** Attempt `k - 1` was admitted and left the caller's bucket at `b`. */
  ghost predicate Leaves(limit: Limit, times: seq<Micros>, k: nat, b: Bucket)
    requires Positive(limit) && 0 < k <= |times|
  {
    && ME in Remembered(limit, Solo(times)[..k])
    && Remembered(limit, Solo(times)[..k])[ME] == b
    && AnswerRemembering(limit, Solo(times), k - 1).allowed
  }

  /** One more attempt by a caller already tracked. */
  lemma SoloServes(limit: Limit, times: seq<Micros>, k: nat, b: Bucket, b': Bucket)
    requires Positive(limit) && 0 < k < |times| && Leaves(limit, times, k, b)
    requires Take(Refilled(b, limit, times[k]), limit, times[k]) == (b', Answer(true, 0))
    ensures Leaves(limit, times, k + 1, b')
  {
    SoloStep(limit, times, k);
  }

  lemma SoloBegins(limit: Limit, times: seq<Micros>)
    requires Positive(limit) && |times| > 0 && times[0] == 0
    ensures Leaves(limit, times, 1, Bucket(limit.burst - 1, 0))
  {
    SoloStep(limit, times, 0);
  }

  /** A bucket emptied at instant zero. */
  lemma {:induction false} Drain(limit: Limit, times: seq<Micros>, k: nat)
    requires Positive(limit) && limit.burst >= 2 && 0 < k <= limit.burst <= |times|
    requires forall i :: 0 <= i < limit.burst ==> times[i] == 0
    ensures Leaves(limit, times, k, Bucket(limit.burst - k, 0))
  {
    if k == 1 {
      SoloBegins(limit, times);
    } else {
      Drain(limit, times, k - 1);
      ExactQuotient(0, limit.refill);
      SoloServes(limit, times, k - 1, Bucket(limit.burst - (k - 1), 0), Bucket(limit.burst - k, 0));
    }
  }

  // ---------------------------------------------------------------- a refill of a microsecond or more

  /** After the burst, one attempt each time the truncated clock has just earned a token. */
  function CreepTimes(limit: Limit, n: nat): (times: seq<Micros>)
    requires Positive(limit)
    ensures |times| == limit.burst + n
  {
    seq(limit.burst + n, k requires 0 <= k =>
      if k < limit.burst then 0 else (k - limit.burst + 1) * (limit.refill / NANOS_PER_MICRO) + 1)
  }

  lemma CreepStep(limit: Limit, each: int, last: Micros, now: Micros)
    requires limit.burst >= 2 && limit.refill > NANOS_PER_MICRO && limit.refill % NANOS_PER_MICRO != 0
    requires each == limit.refill / NANOS_PER_MICRO && now == last + each + 1
    ensures
      Take(Refilled(Bucket(0, last), limit, now), limit, now) == (Bucket(0, last + each), Answer(true, 0))
  {
    var b := Bucket(0, last);
    var earned := Earned(b, limit, now);
    assert limit.refill <= Elapsed(b, now) < 2 * limit.refill;
    CancelFactor(earned, 2, limit.refill);
    CancelFactor(0, earned, limit.refill);
  }

  lemma {:induction false} Creep(
    limit: Limit, each: int, n: nat, times: seq<Micros>, k: nat, j: nat, last: Micros
  )
    requires limit.burst >= 2 && limit.refill > NANOS_PER_MICRO && limit.refill % NANOS_PER_MICRO != 0
    requires times == CreepTimes(limit, n) && k == limit.burst + j <= |times|
    requires each == limit.refill / NANOS_PER_MICRO && last == j * each
    ensures Leaves(limit, times, k, Bucket(0, last))
  {
    if j == 0 {
      Drain(limit, times, k);
    } else {
      var before := last - each;
      Distribute(j, -1, each);
      Creep(limit, each, n, times, k - 1, j - 1, before);
      CreepTimeAt(limit, each, n, j, last);
      CreepStep(limit, each, before, last + 1);
      SoloServes(limit, times, k - 1, Bucket(0, before), Bucket(0, last));
    }
  }

  lemma CreepTimeAt(limit: Limit, each: int, n: nat, j: nat, last: Micros)
    requires Positive(limit) && 0 < j <= n && each == limit.refill / NANOS_PER_MICRO && last == j * each
    ensures CreepTimes(limit, n)[limit.burst + j - 1] == last + 1
  {
  }

  // ---------------------------------------------------------------- a refill under a microsecond

  /** After the burst, repeated attempts one microsecond later. */
  function BurstTimes(limit: Limit, n: nat): (times: seq<Micros>)
    requires Positive(limit)
    ensures |times| == limit.burst + n
  {
    seq(limit.burst + n, k requires 0 <= k => if k < limit.burst then 0 else 1)
  }

  /** A bucket at instant one that still has tokens, or that will earn the same microsecond again. */
  predicate Flush(b: Bucket, limit: Limit, j: nat) {
    && 0 <= b.tokens <= limit.burst - 1
    && (b.lastSeen == 0 || (j >= 2 && b.lastSeen == 1 && b.tokens >= limit.burst + 1 - j))
  }

  lemma FlushStep(b: Bucket, limit: Limit, j: nat)
    requires limit.burst >= 2 && 0 < limit.refill < NANOS_PER_MICRO && NANOS_PER_MICRO % limit.refill != 0
    requires NANOS_PER_MICRO / limit.refill < limit.burst && j <= NANOS_PER_MICRO / limit.refill
    requires Flush(b, limit, j) && (j == 0 ==> b.tokens == 0)
    ensures
      var (b', answer) := Take(Refilled(b, limit, 1), limit, 1);
      answer == Answer(true, 0) && Flush(b', limit, j + 1)
  {
    var each := NANOS_PER_MICRO / limit.refill;
    assert each >= 1;
    if b.lastSeen == 0 {
      assert Earned(b, limit, 1) == each;
      assert 0 < each * limit.refill < NANOS_PER_MICRO;
      assert TruncDiv(each * limit.refill, NANOS_PER_MICRO) == 0;
    } else {
      ExactQuotient(0, limit.refill);
    }
  }

  lemma {:induction false} Floods(limit: Limit, n: nat, times: seq<Micros>, k: nat, j: nat) returns (b: Bucket)
    requires limit.burst >= 2 && 0 < limit.refill < NANOS_PER_MICRO && NANOS_PER_MICRO % limit.refill != 0
    requires NANOS_PER_MICRO / limit.refill < limit.burst
    requires times == BurstTimes(limit, n) && k == limit.burst + j
    requires j <= n == NANOS_PER_MICRO / limit.refill + 1
    ensures Flush(b, limit, j) && (j == 0 ==> b.tokens == 0)
    ensures Leaves(limit, times, k, b)
  {
    if j == 0 {
      Drain(limit, times, k);
      b := Bucket(0, 0);
    } else {
      var before := Floods(limit, n, times, k - 1, j - 1);
      FlushStep(before, limit, j - 1);
      b := Take(Refilled(before, limit, 1), limit, 1).0;
      SoloServes(limit, times, k - 1, before, b);
    }
  }

  // ---------------------------------------------------------------- exactly

  /** More admissions than the burst, the elapsed refills and the drops of the caller allow. */
  ghost predicate Exceeds(limit: Limit, maxKeys: nat, events: seq<Event>, h: History)
    requires Positive(limit)
  {
    && events != [] && Chronological(events) && Run(limit, maxKeys, events, h)
    && Admitted(events, h.answers, ME, 0, |events|)
       > AllowedBy(limit, events[|events| - 1].now - events[0].now) + limit.burst * Drops(h.drops, ME, 0, |events|)
  }

  lemma SoloExceeds(limit: Limit, maxKeys: nat, times: seq<Micros>)
    requires Positive(limit) && maxKeys > 0 && times != []
    requires forall i, j :: 0 <= i < j < |times| ==> times[i] <= times[j]
    requires forall k :: 0 <= k < |times| ==> AnswerRemembering(limit, Solo(times), k).allowed
    requires |times| > AllowedBy(limit, times[|times| - 1] - times[0])
    ensures Exceeds(limit, maxKeys, Solo(times), SoloHistory(limit, times))
  {
    SoloRuns(limit, maxKeys, times);
    var events, h := Solo(times), SoloHistory(limit, times);
    assert Chronological(events);
    forall k | 0 <= k < |events| ensures events[k].caller == ME && h.answers[k].allowed {
    }
    AllAdmitted(events, h.answers, |times|);
    KeptIsNoDrops(h, ME, 0, |times|);
  }

  lemma CreepExceeds(limit: Limit, maxKeys: nat)
    requires limit.burst >= 2 && limit.refill > NANOS_PER_MICRO && limit.refill % NANOS_PER_MICRO != 0 && maxKeys > 0
    ensures exists events, h :: Exceeds(limit, maxKeys, events, h)
  {
    var n, each := 1001, limit.refill / NANOS_PER_MICRO;
    var times := CreepTimes(limit, n);
    forall k | 0 <= k < |times| ensures AnswerRemembering(limit, Solo(times), k).allowed {
      if k < limit.burst {
        Drain(limit, times, k + 1);
      } else {
        Creep(limit, each, n, times, k + 1, k + 1 - limit.burst, (k + 1 - limit.burst) * each);
      }
    }
    forall i, j | 0 <= i < j < |times| ensures times[i] <= times[j] {
      ScaleMonotone(i - limit.burst + 1, j - limit.burst + 1, each);
      if j >= limit.burst {
        ScaleMonotone(0, j - limit.burst + 1, each);
      }
    }
    var interval := times[|times| - 1] - times[0];
    assert interval == n * each + 1;
    assert interval * NANOS_PER_MICRO < n * limit.refill;
    Below(interval * NANOS_PER_MICRO, n, limit.refill);
    SoloExceeds(limit, maxKeys, times);
  }

  lemma Below(total: int, n: int, unit: int)
    requires unit > 0 && total < n * unit
    ensures total / unit < n
  {
    var q := total / unit;
    assert q * unit <= total;
    CancelFactor(q, n, unit);
  }

  lemma FloodAdmits(limit: Limit, n: nat, times: seq<Micros>, k: nat)
    requires limit.burst >= 2 && 0 < limit.refill < NANOS_PER_MICRO && NANOS_PER_MICRO % limit.refill != 0
    requires NANOS_PER_MICRO / limit.refill < limit.burst && n == NANOS_PER_MICRO / limit.refill + 1
    requires times == BurstTimes(limit, n) && k < |times|
    ensures AnswerRemembering(limit, Solo(times), k).allowed
  {
    if k < limit.burst {
      Drain(limit, times, k + 1);
    } else {
      var _ := Floods(limit, n, times, k + 1, k + 1 - limit.burst);
    }
  }

  lemma FloodExceeds(limit: Limit, maxKeys: nat)
    requires limit.burst >= 2 && 0 < limit.refill < NANOS_PER_MICRO && NANOS_PER_MICRO % limit.refill != 0
    requires limit.burst * limit.refill > NANOS_PER_MICRO && maxKeys > 0
    ensures exists events, h :: Exceeds(limit, maxKeys, events, h)
  {
    var each := NANOS_PER_MICRO / limit.refill;
    var n := each + 1;
    var times := BurstTimes(limit, n);
    Below(NANOS_PER_MICRO, limit.burst, limit.refill);
    forall k | 0 <= k < |times| ensures AnswerRemembering(limit, Solo(times), k).allowed {
      FloodAdmits(limit, n, times, k);
    }
    assert times[|times| - 1] - times[0] == 1;
    SoloExceeds(limit, maxKeys, times);
  }

  /** The bound holds of every run exactly when the limit is one the microsecond clock accounts for. */
  lemma RateBoundExactly(limit: Limit, maxKeys: nat)
    requires Positive(limit) && maxKeys > 0
    ensures (forall events, h :: !Exceeds(limit, maxKeys, events, h)) <==> Exact(limit)
  {
    if Exact(limit) {
      forall events: seq<Event>, h: History ensures !Exceeds(limit, maxKeys, events, h) {
        if events != [] && Chronological(events) && Run(limit, maxKeys, events, h) {
          RateBound(
            limit, maxKeys, events, h, ME, 0, |events|, events[0].now, events[|events| - 1].now);
        }
      }
    } else if limit.refill > NANOS_PER_MICRO {
      CreepExceeds(limit, maxKeys);
    } else {
      FloodExceeds(limit, maxKeys);
    }
  }

  // ---------------------------------------------------------------- what a drop costs

  const OTHER: Caller := "other"

  /** A run all at instant zero, and what it comes to. */
  ghost predicate Ends(
    limit: Limit, maxKeys: nat, events: seq<Event>, h: History, m: Buckets, admitted: nat, drops: nat
  )
    requires Positive(limit)
  {
    && Run(limit, maxKeys, events, h)
    && (forall k :: 0 <= k < |events| ==> events[k].now == 0)
    && h.maps[|events|] == m
    && Admitted(events, h.answers, ME, 0, |events|) == admitted
    && Drops(h.drops, ME, 0, |events|) == drops
  }

  lemma {:induction false} PrefixesCount(
    events: seq<Event>, answers: seq<Answer>, drops: seq<Option<Caller>>, e: Event, answer: Answer,
    dropped: Option<Caller>, j: nat
  )
    requires j <= |events| == |answers| == |drops|
    ensures Admitted(events + [e], answers + [answer], ME, 0, j) == Admitted(events, answers, ME, 0, j)
    ensures Drops(drops + [dropped], ME, 0, j) == Drops(drops, ME, 0, j)
  {
    if j == 0 {
    } else {
      PrefixesCount(events, answers, drops, e, answer, dropped, j - 1);
    }
  }

  /** One more attempt at the same instant. */
  lemma Extend(
    limit: Limit, maxKeys: nat, events: seq<Event>, h: History, m: Buckets, admitted: nat, drops: nat,
    caller: Caller, dropped: Option<Caller>, m': Buckets, answer: Answer
  ) returns (events': seq<Event>, h': History)
    requires Positive(limit) && Ends(limit, maxKeys, events, h, m, admitted, drops)
    requires Served(limit, maxKeys, Event(caller, 0), m, m', answer, dropped)
    ensures Ends(limit, maxKeys, events', h', m',
                 admitted + (if caller == ME && answer.allowed then 1 else 0),
                 drops + (if dropped == Some(ME) then 1 else 0))
  {
    var e, n := Event(caller, 0), |events|;
    events', h' := events + [e], History(h.maps + [m'], h.answers + [answer], h.drops + [dropped]);
    forall k | 0 <= k < |events'| ensures ServedAt(limit, maxKeys, events', h', k) {
      if k < n {
        assert ServedAt(limit, maxKeys, events, h, k);
      }
    }
    PrefixesCount(events, h.answers, h.drops, e, answer, dropped, n);
  }

  // ------------------------------------------------ everybody else

  /** As many different callers as are needed. */
  function Bystander(i: nat): Caller {
    seq(i, j requires 0 <= j < i => 'x')
  }

  /** The first `n` of them, each one attempt down. */
  function Crowd(limit: Limit, n: nat): Buckets {
    if n == 0 then map[] else Crowd(limit, n - 1)[Bystander(n - 1) := Bucket(limit.burst - 1, 0)]
  }

  lemma {:induction false} CrowdHolds(limit: Limit, n: nat)
    ensures |Crowd(limit, n)| == n
    ensures ME !in Crowd(limit, n) && OTHER !in Crowd(limit, n)
    ensures forall c :: c in Crowd(limit, n) ==> |c| < n && Crowd(limit, n)[c] == Bucket(limit.burst - 1, 0)
  {
    if n == 0 {
    } else {
      CrowdHolds(limit, n - 1);
      var m, c := Crowd(limit, n - 1), Bystander(n - 1);
      assert |c| == n - 1;
      assert c != ME by { assert ME[0] == 'c'; assert n - 1 > 0 ==> c[0] == 'x'; }
      assert c != OTHER by { assert OTHER[0] == 'o'; assert n - 1 > 0 ==> c[0] == 'x'; }
      MapSize(m, c, Bucket(limit.burst - 1, 0));
    }
  }

  /** With room to spare, a stranger is let in and nobody dropped. */
  lemma RoomForOne(limit: Limit, maxKeys: nat, m: Buckets, caller: Caller)
    requires Positive(limit) && caller !in m && |m| < maxKeys
    ensures Served(limit, maxKeys, Event(caller, 0), m, m[caller := Bucket(limit.burst - 1, 0)], Answer(true, 0), None)
  {
  }

  lemma {:induction false} CrowdArrives(limit: Limit, maxKeys: nat, n: nat) returns (events: seq<Event>, h: History)
    requires Positive(limit) && n < maxKeys
    ensures Ends(limit, maxKeys, events, h, Crowd(limit, n), 0, 0)
  {
    if n == 0 {
      events, h := [], History([map[]], [], []);
    } else {
      events, h := CrowdArrives(limit, maxKeys, n - 1);
      var m, c := Crowd(limit, n - 1), Bystander(n - 1);
      CrowdHolds(limit, n - 1);
      CrowdHolds(limit, n);
      assert c in Crowd(limit, n) && |c| == n - 1;
      RoomForOne(limit, maxKeys, m, c);
      events, h := Extend(limit, maxKeys, events, h, m, 0, 0, c, None, Crowd(limit, n), Answer(true, 0));
    }
  }

  // ------------------------------------------------ this caller among them

  /** Everything left in the bucket, spent. */
  lemma {:induction false} SpendAll(
    limit: Limit, maxKeys: nat, others: Buckets, events: seq<Event>, h: History, admitted: nat, drops: nat, left: nat
  ) returns (events': seq<Event>, h': History)
    requires Positive(limit) && left < limit.burst
    requires Ends(limit, maxKeys, events, h, others[ME := Bucket(left, 0)], admitted, drops)
    ensures Ends(limit, maxKeys, events', h', others[ME := Bucket(0, 0)], admitted + left, drops)
    decreases left
  {
    events', h' := events, h;
    if left == 0 {
    } else {
      var m, m' := others[ME := Bucket(left, 0)], others[ME := Bucket(left - 1, 0)];
      ExactQuotient(0, limit.refill);
      assert Earned(Bucket(left, 0), limit, 0) == 0;
      assert m[ME := Bucket(left - 1, 0)] == m';
      events', h' := Extend(limit, maxKeys, events, h, m, admitted, drops, ME, None, m', Answer(true, 0));
      events', h' := SpendAll(limit, maxKeys, others, events', h', admitted + 1, drops, left - 1);
    }
  }

  /** Nobody in it has refilled at instant zero. */
  predicate AllNew(m: Buckets) {
    forall c :: c in m ==> m[c].lastSeen == 0
  }

  /** Everybody else, with one place left. */
  ghost predicate OnePlaceLeft(others: Buckets, maxKeys: nat) {
    AllNew(others) && |others| + 1 == maxKeys && ME !in others && OTHER !in others
  }

  /** A caller not tracked takes the place of one still limited, in a map that is full. */
  lemma TakesThePlace(limit: Limit, maxKeys: nat, others: Buckets, from: Caller, to: Caller, left: nat)
    requires Positive(limit) && OnePlaceLeft(others, maxKeys) && from != to && from !in others && to !in others
    ensures Served(limit, maxKeys, Event(to, 0), others[from := Bucket(left, 0)],
                   others[to := Bucket(limit.burst - 1, 0)], Answer(true, 0), Some(from))
  {
    var m := others[from := Bucket(left, 0)];
    MapSize(others, from, Bucket(left, 0));
    ScaleMonotone(1, limit.burst, limit.refill);
    assert limit.refill * limit.burst > 0;
    assert Survivors(m, limit, 0) == m;
    assert m - {from} == others;
  }

  lemma SpendAtFirst(limit: Limit, maxKeys: nat, others: Buckets, before: seq<Event>, was: History)
    returns (events: seq<Event>, h: History)
    requires Positive(limit) && OnePlaceLeft(others, maxKeys) && Ends(limit, maxKeys, before, was, others, 0, 0)
    ensures Ends(limit, maxKeys, events, h, others[ME := Bucket(0, 0)], limit.burst, 0)
  {
    var m := others[ME := Bucket(limit.burst - 1, 0)];
    RoomForOne(limit, maxKeys, others, ME);
    events, h := Extend(limit, maxKeys, before, was, others, 0, 0, ME, None, m, Answer(true, 0));
    events, h := SpendAll(limit, maxKeys, others, events, h, 1, 0, limit.burst - 1);
  }

  /** Dropped for somebody else, and back in that one's place with a full bucket, all spent again. */
  lemma DroppedAndBack(
    limit: Limit, maxKeys: nat, others: Buckets, events: seq<Event>, h: History, admitted: nat, drops: nat
  ) returns (events': seq<Event>, h': History)
    requires Positive(limit) && OnePlaceLeft(others, maxKeys)
    requires Ends(limit, maxKeys, events, h, others[ME := Bucket(0, 0)], admitted, drops)
    ensures Ends(limit, maxKeys, events', h', others[ME := Bucket(0, 0)], admitted + limit.burst, drops + 1)
  {
    var full := Bucket(limit.burst - 1, 0);
    TakesThePlace(limit, maxKeys, others, ME, OTHER, 0);
    events', h' := Extend(limit, maxKeys, events, h, others[ME := Bucket(0, 0)], admitted, drops, OTHER, Some(ME),
                          others[OTHER := full], Answer(true, 0));
    TakesThePlace(limit, maxKeys, others, OTHER, ME, limit.burst - 1);
    events', h' := Extend(limit, maxKeys, events', h', others[OTHER := full], admitted, drops + 1, ME, Some(OTHER),
                          others[ME := full], Answer(true, 0));
    events', h' := SpendAll(limit, maxKeys, others, events', h', admitted + 1, drops + 1, limit.burst - 1);
  }

  /**
   * The term for the drops is needed in full, whatever the limit and however many callers are tracked: each drop can
   * hand a caller a fresh Burst at no cost in time.
   */
  lemma {:induction false} DropsRestoreTheBurst(limit: Limit, maxKeys: nat, drops: nat)
    returns (events: seq<Event>, h: History)
    requires Positive(limit) && maxKeys > 0
    ensures Ends(limit, maxKeys, events, h, Crowd(limit, maxKeys - 1)[ME := Bucket(0, 0)],
                 limit.burst + limit.burst * drops, drops)
  {
    var others := Crowd(limit, maxKeys - 1);
    CrowdHolds(limit, maxKeys - 1);
    if drops == 0 {
      events, h := CrowdArrives(limit, maxKeys, maxKeys - 1);
      events, h := SpendAtFirst(limit, maxKeys, others, events, h);
    } else {
      var admitted := limit.burst + limit.burst * (drops - 1);
      events, h := DropsRestoreTheBurst(limit, maxKeys, drops - 1);
      events, h := DroppedAndBack(limit, maxKeys, others, events, h, admitted, drops - 1);
      Distribute(drops - 1, 1, limit.burst);
    }
  }
}
