/** How far apart two reports of one kill may lie, from the timer's own fields. */
module Tolerance {
  import opened Core
  import opened ConsensusTypes
  import opened Clusters
  import opened Derivation
  import opened Windows

  /** Every timer has exactly one. */
  lemma OneTolerance(t: Timer) returns (seconds: int)
    ensures IsTolerance(t, seconds)
    ensures forall other :: IsTolerance(t, other) ==> other == seconds
  {
    if t.epsilon.Some? {
      seconds := if t.epsilon.value >= 0 then t.epsilon.value else 0;
    } else if t.kind == Unknown || t.openOffset.None? {
      seconds := 1800;
    } else if t.openOffset.value < 1200 {
      seconds := 300;
    } else if t.openOffset.value >= 7200 {
      seconds := 1800;
    } else {
      seconds := t.openOffset.value / 4;
    }
  }

  /** Two kills nothing retracts are all there is to consider. */
  lemma PairConsidered(a: Report, b: Report, t: Timer)
    requires a.kind == Kill && b.kind == Kill
    ensures Considered([a, b], [], t) == [a, b]
  {
    var log := [a, b];
    forall r | r in log ensures Stands(r, log) {
    }
    FilterAll((r: Report) => Stands(r, log), log);
  }

  lemma PairGroups(a: Report, b: Report, epsilon: Micros)
    requires a.diedAt <= b.diedAt && epsilon >= 0
    ensures |Sweep([a, b], epsilon)| == if b.diedAt - a.diedAt <= epsilon then 1 else 2
  {
    assert [a, b][..1] == [a] && [a][..0] == [];
    assert Sweep([a], epsilon) == [[a]];
    assert [a] + [b] == [a, b];
  }

  /** Two people's reports are of one kill exactly when they lie no further apart than the tolerance. */
  lemma OneKillExactly(a: Report, b: Report, t: Timer, seconds: int)
    requires a.kind == Kill && b.kind == Kill && IsTolerance(t, seconds)
    ensures |KillEvents([a, b], [], t)| == if Abs(b.diedAt - a.diedAt) <= seconds * 1_000_000 then 1 else 2
  {
    PairConsidered(a, b, t);
    assert [a, b][1..] == [b] && Sort([b]) == [b];
    assert Epsilon(t) == seconds * 1_000_000;
    if NotAfter(a, b) {
      assert Sort([a, b]) == [a, b];
      PairGroups(a, b, Epsilon(t));
    } else {
      assert Insert(a, [b]) == [b] + Insert(a, [b][1..]) == [b, a];
      assert Sort([a, b]) == [b, a];
      PairGroups(b, a, Epsilon(t));
    }
  }

  /** A tolerance stored with a window is the one its reports are grouped by. */
  lemma StoredToleranceGroups(a: Report, b: Report, s: Stored, isQuakeTarget: bool)
    requires a.kind == Kill && b.kind == Kill && s.epsilon.Some? && s.epsilon.value >= 0
    ensures |KillEvents([a, b], [], TimerOf(s, isQuakeTarget))|
            == if Abs(b.diedAt - a.diedAt) <= s.epsilon.value * 1_000_000 then 1 else 2
  {
    OneKillExactly(a, b, TimerOf(s, isQuakeTarget), s.epsilon.value);
  }
}
