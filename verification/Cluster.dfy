/** Grouping reports into kill events, and the instant one event is shown at. */
module Clusters {
  import opened Core
  import opened ConsensusTypes

  const EPSILON_MIN_SECONDS: int := 5 * 60
  const EPSILON_MAX_SECONDS: int := 30 * 60
  const EPSILON_DEFAULT_SECONDS: int := 30 * 60
  const EPSILON_WINDOW_DIVISOR: int := 4

  type Cluster = c: seq<Report> | |c| > 0 witness [Report(0, Kill, 0, 0, 0, false, Manual, None)]

  /**
   * The tolerance in seconds: what is stored, if not negative; thirty minutes without a window; otherwise the whole
   * seconds of a quarter of the open offset, and no less than five minutes and no more than thirty.
   */
  ghost predicate IsTolerance(t: Timer, seconds: int) {
    if t.epsilon.Some? then seconds == if t.epsilon.value >= 0 then t.epsilon.value else 0
    else if t.kind == Unknown || t.openOffset.None? then seconds == 1800
    else if t.openOffset.value < 1200 then seconds == 300
    else if t.openOffset.value >= 7200 then seconds == 1800
    else 4 * seconds <= t.openOffset.value < 4 * seconds + 4
  }

  function EpsilonSeconds(t: Timer): (e: int)
    ensures IsTolerance(t, e) && e >= 0
    ensures t.epsilon.None? ==> EPSILON_MIN_SECONDS <= e <= EPSILON_MAX_SECONDS
  {
    if t.epsilon.Some? then Max(t.epsilon.value, 0)
    else if t.kind == Unknown || t.openOffset.None? then EPSILON_DEFAULT_SECONDS
    else Min(Max(TruncDiv(t.openOffset.value, EPSILON_WINDOW_DIVISOR), EPSILON_MIN_SECONDS), EPSILON_MAX_SECONDS)
  }

  function Epsilon(t: Timer): (e: Micros)
    ensures e >= 0
  {
    EpsilonSeconds(t) * MICROS_PER_SECOND
  }

  // ---------------------------------------------------------------- order

  /** died_at order, with the id breaking ties. */
  predicate NotAfter(a: Report, b: Report) {
    a.diedAt < b.diedAt || (a.diedAt == b.diedAt && a.id <= b.id)
  }

  ghost predicate Ordered(s: seq<Report>) {
    forall i, j :: 0 <= i < j < |s| ==> NotAfter(s[i], s[j])
  }

  function Insert(r: Report, s: seq<Report>): seq<Report> {
    if s == [] || NotAfter(r, s[0]) then [r] + s else [s[0]] + Insert(r, s[1..])
  }

  /** What the library sort returns: the order is total, so there is nothing to be stable about. */
  function Sort(s: seq<Report>): seq<Report> {
    if s == [] then [] else Insert(s[0], Sort(s[1..]))
  }

  // ---------------------------------------------------------------- the sweep

  /** May `r` extend `c`? Within epsilon of the previous report, and within the span cap. */
  predicate Joins(c: Cluster, r: Report, epsilon: Micros) {
    r.diedAt - c[|c| - 1].diedAt <= epsilon && r.diedAt - c[0].diedAt <= 2 * epsilon
  }

  function Step(out: seq<Cluster>, r: Report, epsilon: Micros): seq<Cluster> {
    if out != [] && Joins(out[|out| - 1], r, epsilon)
    then out[|out| - 1 := out[|out| - 1] + [r]]
    else out + [[r]]
  }

  function Sweep(s: seq<Report>, epsilon: Micros): seq<Cluster> {
    if s == [] then [] else Step(Sweep(s[..|s| - 1], epsilon), s[|s| - 1], epsilon)
  }

  /** The kill events behind a set of reports. */
  function Group(reports: seq<Report>, epsilon: Micros): seq<Cluster> {
    Sweep(Sort(reports), epsilon)
  }

  method ClusterReports(reports: seq<Report>, epsilon: Micros) returns (out: seq<Cluster>)
    ensures out == Group(reports, epsilon)
  {
    var sorted := Sort(reports);
    out := [];
    for i := 0 to |sorted|
      invariant out == Sweep(sorted[..i], epsilon)
    {
      var r := sorted[i];
      assert sorted[..i + 1][..i] == sorted[..i];
      if |out| > 0 {
        var current := out[|out| - 1];
        var previous := current[|current| - 1];
        if r.diedAt - previous.diedAt <= epsilon && r.diedAt - current[0].diedAt <= 2 * epsilon {
          out := out[|out| - 1 := current + [r]];
          continue;
        }
      }
      out := out + [[r]];
    }
    assert sorted[..|sorted|] == sorted;
  }

  // ---------------------------------------------------------------- the point estimate

  predicate HasLogLine(members: seq<Report>) {
    exists r | r in members :: r.source == LogLine
  }

  function LogLines(members: seq<Report>): seq<Report> {
    Filter((r: Report) => r.source == LogLine, members)
  }

  /** Log lines estimate alone; memories only corroborate them. */
  function Estimators(members: Cluster): Cluster {
    if HasLogLine(members)
    then
      LogLinesNonempty(members);
      LogLines(members)
    else members
  }

  lemma LogLinesNonempty(members: seq<Report>)
    requires HasLogLine(members)
    ensures LogLines(members) != []
  {
    var r :| r in members && r.source == LogLine;
    assert r in LogLines(members);
  }

  /** The lower median of the estimators. */
  function Estimate(members: Cluster): Micros {
    var e := Estimators(members);
    e[(|e| - 1) / 2].diedAt
  }

  method CollectLogLines(members: seq<Report>) returns (lines: seq<Report>)
    ensures lines == LogLines(members)
  {
    lines := [];
    for i := 0 to |members|
      invariant lines == LogLines(members[..i])
    {
      if members[i].source == LogLine {
        lines := lines + [members[i]];
      }
      FilterAppend((r: Report) => r.source == LogLine, members[..i], [members[i]]);
      assert members[..i + 1] == members[..i] + [members[i]];
    }
    assert members[..|members|] == members;
  }

  method EstimateCluster(members: Cluster) returns (died: Micros)
    ensures died == Estimate(members)
  {
    var estimators: seq<Report> := members;
    if HasLogLine(members) {
      estimators := CollectLogLines(members);
    }
    assert estimators == Estimators(members);
    var n := |estimators|;
    if n % 2 == 1 {
      died := estimators[n / 2].diedAt;
    } else {
      died := estimators[n / 2 - 1].diedAt;
    }
  }
}
