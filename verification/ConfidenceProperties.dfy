/** What it takes to be believed. */
module ConfidenceProperties {
  import opened Core
  import opened ConsensusTypes
  import opened Clusters
  import opened EstimateProperties
  import opened Derivation

  lemma EstimateSitsOnALogLine(c: Cluster)
    requires Ordered(c) && HasLogLine(c)
    ensures exists r :: r in c && r.diedAt == Estimate(c) && r.source == LogLine
  {
    EstimateMinimises(c);
  }

  lemma NearHasLogLine(c: Cluster, died: Micros, r: Report)
    requires r in c && r.diedAt == died && r.source == LogLine
    ensures HasLogLine(Near(c, died))
  {
    assert r in Near(c, died);
  }

  /** The estimate of a cluster with a log line sits on one, so only the second reporter is in question. */
  lemma CorroborationNeedsTwo(c: Cluster)
    requires Ordered(c) && HasLogLine(c)
    ensures Corroborated(c, Estimate(c)) <==> |Reporters(Near(c, Estimate(c)))| > 1
  {
    EstimateSitsOnALogLine(c);
    var r :| r in c && r.diedAt == Estimate(c) && r.source == LogLine;
    NearHasLogLine(c, Estimate(c), r);
  }

  lemma SeveralReporters(members: seq<Report>)
    ensures |Reporters(members)| > 1 <==>
            exists a, b :: a in members && b in members && a.reporter != b.reporter
  {
    if |Reporters(members)| > 1 {
      var x :| x in Reporters(members);
      var others := Reporters(members) - {x};
      assert |others| == |Reporters(members)| - 1;
      var y :| y in others;
      var a :| a in members && a.reporter == x;
      var b :| b in members && b.reporter == y;
      assert a.reporter != b.reporter;
    }
    if a, b :| a in members && b in members && a.reporter != b.reporter {
      assert {a.reporter, b.reporter} <= Reporters(members);
      SubsetSize({a.reporter, b.reporter}, Reporters(members));
    }
  }

  /** One of them is a log line. */
  ghost predicate Logged(s: seq<Report>) {
    exists r :: r in s && r.source == LogLine
  }

  /** Two different people are among them. */
  ghost predicate TwoPeople(s: seq<Report>) {
    exists a, b :: a in s && b in s && a.reporter != b.reporter
  }

  /** Two different people dated the event within five minutes of the estimate. */
  ghost predicate TwoPeopleClose(c: Cluster, died: Micros) {
    exists a, b ::
      && a in c && died - 300_000_000 <= a.diedAt <= died + 300_000_000
      && b in c && died - 300_000_000 <= b.diedAt <= died + 300_000_000 && a.reporter != b.reporter
  }

  lemma CloseExactly(c: Cluster, died: Micros)
    ensures TwoPeople(Near(c, died)) <==> TwoPeopleClose(c, died)
  {
    if a, b :| a in c && died - 300_000_000 <= a.diedAt <= died + 300_000_000
               && b in c && died - 300_000_000 <= b.diedAt <= died + 300_000_000 && a.reporter != b.reporter {
      assert a in Near(c, died) && b in Near(c, died);
    }
  }

  /**
   * Confidence exactly. High: two different people, and either everybody within five minutes of each other, or a
   * log line in the cluster and two different people within five minutes of the estimate. Otherwise medium, or low
   * for one person without a log line.
   */
  lemma HighExactly(c: Cluster)
    requires Ordered(c)
    ensures
      var died := Estimate(c);
      ConfidenceOf(c, died)
      == if !TwoPeople(c) then (if Logged(c) then Medium else Low)
         else if c[|c| - 1].diedAt - c[0].diedAt <= 300_000_000 || (Logged(c) && TwoPeopleClose(c, died)) then High
         else Medium
  {
    PeopleExactly(c);
    CorroboratedExactly(c);
    LoggedExactly(c);
    ConfidenceCases(c, Estimate(c));
  }

  lemma LoggedExactly(c: Cluster)
    ensures HasLogLine(c) <==> Logged(c)
  {
  }

  lemma ConfidenceCases(c: Cluster, died: Micros)
    ensures ConfidenceOf(c, died)
            == if |Reporters(c)| == 1 then (if HasLogLine(c) then Medium else Low)
               else if c[|c| - 1].diedAt - c[0].diedAt <= 300_000_000 || Corroborated(c, died) then High
               else Medium
  {
  }

  lemma PeopleExactly(c: Cluster)
    ensures |Reporters(c)| == 1 <==> !TwoPeople(c)
  {
    SeveralReporters(c);
    assert c[0] in c && c[0].reporter in Reporters(c);
  }

  /** Corroborated exactly: a log line, and two different people close to the estimate it makes. */
  lemma CorroboratedExactly(c: Cluster)
    requires Ordered(c)
    ensures Corroborated(c, Estimate(c)) <==>
              Logged(c) && TwoPeopleClose(c, Estimate(c))
  {
    SeveralReporters(Near(c, Estimate(c)));
    CloseExactly(c, Estimate(c));
    if HasLogLine(c) {
      CorroborationNeedsTwo(c);
    }
  }

  /** One person, however often they report and from whatever source, is never believed outright. */
  lemma OneReporterIsNeverHigh(c: Cluster)
    requires Ordered(c)
    requires forall a, b :: a in c && b in c ==> a.reporter == b.reporter
    ensures ConfidenceOf(c, Estimate(c)) == if HasLogLine(c) then Medium else Low
  {
    HighExactly(c);
    SeveralReporters(c);
    assert c[0] in c && c[0].reporter in Reporters(c);
  }
}
