/** The sweep is the unique greedy division of the sorted reports, and no legal division is smaller. */
module SweepProperties {
  import opened Core
  import opened ConsensusTypes
  import opened Clusters
  import opened SortProperties

  function Flatten(cs: seq<Cluster>): seq<Report> {
    if cs == [] then [] else Flatten(cs[..|cs| - 1]) + cs[|cs| - 1]
  }

  /** The two limits on one kill event: the gap to the previous report, and the whole span. */
  ghost predicate Obeys(c: Cluster, epsilon: Micros) {
    && (forall i, j :: 0 <= i && j == i + 1 < |c| ==> c[j].diedAt - c[i].diedAt <= epsilon)
    && c[|c| - 1].diedAt - c[0].diedAt <= 2 * epsilon
  }

  /** `cs` cuts `s` into consecutive runs that each obey both limits. */
  ghost predicate Divides(cs: seq<Cluster>, s: seq<Report>, epsilon: Micros) {
    Flatten(cs) == s && forall c :: c in cs ==> Obeys(c, epsilon)
  }

  /** No run could have taken the report that starts the next one. */
  ghost predicate Greedy(cs: seq<Cluster>, epsilon: Micros) {
    forall i, j :: 0 <= i && j == i + 1 < |cs| ==> !Joins(cs[i], cs[j][0], epsilon)
  }

  /** Removes the last report from a division. */
  ghost function Shrink(cs: seq<Cluster>): seq<Cluster>
    requires cs != []
  {
    var last := cs[|cs| - 1];
    if |last| == 1 then cs[..|cs| - 1] else cs[..|cs| - 1] + [last[..|last| - 1]]
  }

  lemma ShrinkDivides(cs: seq<Cluster>, s: seq<Report>, epsilon: Micros)
    requires epsilon >= 0 && Ordered(s) && s != [] && Divides(cs, s, epsilon)
    ensures cs != []
    ensures Divides(Shrink(cs), s[..|s| - 1], epsilon)
    ensures var last := cs[|cs| - 1]; last == s[|s| - |last|..]
  {
    var front, last := cs[..|cs| - 1], cs[|cs| - 1];
    assert s == Flatten(front) + last;
    if |last| == 1 {
      assert Flatten(front) == s[..|s| - 1];
    } else {
      var shorter: Cluster := last[..|last| - 1];
      assert (front + [shorter])[..|front|] == front;
      assert Flatten(front + [shorter]) == s[..|s| - 1];
      assert NotAfter(s[|s| - 2], s[|s| - 1]);
      assert Obeys(last, epsilon);
      forall i, j | 0 <= i && j == i + 1 < |shorter| ensures shorter[j].diedAt - shorter[i].diedAt <= epsilon {
        assert shorter[i] == last[i] && shorter[j] == last[j];
      }
    }
  }

  lemma {:induction false} SweepDivides(s: seq<Report>, epsilon: Micros)
    requires epsilon >= 0
    ensures Divides(Sweep(s, epsilon), s, epsilon)
    ensures Greedy(Sweep(s, epsilon), epsilon)
  {
    if s == [] {
    } else {
      var before, r := s[..|s| - 1], s[|s| - 1];
      SweepDivides(before, epsilon);
      assert s == before + [r];
      StepDivides(Sweep(before, epsilon), before, r, epsilon);
    }
  }

  lemma StepDivides(out: seq<Cluster>, before: seq<Report>, r: Report, epsilon: Micros)
    requires epsilon >= 0 && Divides(out, before, epsilon) && Greedy(out, epsilon)
    ensures Divides(Step(out, r, epsilon), before + [r], epsilon)
    ensures Greedy(Step(out, r, epsilon), epsilon)
  {
    if out != [] && Joins(out[|out| - 1], r, epsilon) {
      GrowingDivides(out, before, r, epsilon, Step(out, r, epsilon));
    } else {
      StartingDivides(out, before, r, epsilon, Step(out, r, epsilon));
    }
  }

  lemma GrowingDivides(out: seq<Cluster>, before: seq<Report>, r: Report, epsilon: Micros, next: seq<Cluster>)
    requires epsilon >= 0 && Divides(out, before, epsilon) && Greedy(out, epsilon)
    requires out != [] && Joins(out[|out| - 1], r, epsilon)
    requires next == out[|out| - 1 := out[|out| - 1] + [r]]
    ensures Divides(next, before + [r], epsilon) && Greedy(next, epsilon)
  {
    var grown: Cluster := out[|out| - 1] + [r];
    JoiningObeys(out[|out| - 1], r, epsilon);
    ReplaceLast(out, grown);
    assert Flatten(out[..|out| - 1]) + grown == before + [r];
    forall i, j | 0 <= i && j == i + 1 < |next| ensures !Joins(next[i], next[j][0], epsilon) {
      assert next[i] == out[i] && next[j][0] == out[j][0];
    }
  }

  lemma StartingDivides(out: seq<Cluster>, before: seq<Report>, r: Report, epsilon: Micros, next: seq<Cluster>)
    requires epsilon >= 0 && Divides(out, before, epsilon) && Greedy(out, epsilon)
    requires out == [] || !Joins(out[|out| - 1], r, epsilon)
    requires next == out + [[r]]
    ensures Divides(next, before + [r], epsilon) && Greedy(next, epsilon)
  {
    AppendOne(out, [r]);
    forall i, j | 0 <= i && j == i + 1 < |next| ensures !Joins(next[i], next[j][0], epsilon) {
      assert next[i] == out[i] && (j < |out| ==> next[j] == out[j]);
    }
  }

  lemma ReplaceLast(out: seq<Cluster>, c: Cluster)
    requires out != []
    ensures
      var next := out[|out| - 1 := c];
      Flatten(next) == Flatten(out[..|out| - 1]) + c && forall d :: d in next ==> d in out || d == c
  {
    assert out[|out| - 1 := c][..|out| - 1] == out[..|out| - 1];
  }

  lemma AppendOne(out: seq<Cluster>, c: Cluster)
    ensures Flatten(out + [c]) == Flatten(out) + c
  {
    assert (out + [c])[..|out|] == out;
  }

  lemma JoiningObeys(c: Cluster, r: Report, epsilon: Micros)
    requires Obeys(c, epsilon) && Joins(c, r, epsilon)
    ensures Obeys(c + [r], epsilon)
  {
    var c' := c + [r];
    forall i, j | 0 <= i && j == i + 1 < |c'| ensures c'[j].diedAt - c'[i].diedAt <= epsilon {
      assert c'[i] == c[i] && (j < |c| ==> c'[j] == c[j]);
    }
  }

  /** Taking the last report off a greedy division and stepping it back on changes nothing. */
  lemma StepRestores(cs: seq<Cluster>, s: seq<Report>, epsilon: Micros)
    requires epsilon >= 0 && Ordered(s) && s != [] && cs != []
    requires Divides(cs, s, epsilon) && Greedy(cs, epsilon)
    ensures Greedy(Shrink(cs), epsilon)
    ensures Step(Shrink(cs), s[|s| - 1], epsilon) == cs
  {
    ShrinkDivides(cs, s, epsilon);
    ShrinkStaysGreedy(cs, epsilon);
    var last := cs[|cs| - 1];
    assert last[|last| - 1] == s[|s| - 1];
    if |last| == 1 {
      FirstRestored(cs, last, s[|s| - 1], epsilon);
    } else {
      assert Obeys(last, epsilon);
      LastRestored(cs, last, s[|s| - 1], epsilon);
    }
  }

  lemma FirstRestored(cs: seq<Cluster>, last: Cluster, r: Report, epsilon: Micros)
    requires cs != [] && cs[|cs| - 1] == last && last == [r] && Greedy(cs, epsilon)
    ensures Step(cs[..|cs| - 1], r, epsilon) == cs
  {
    assert |cs| > 1 ==> !Joins(cs[|cs| - 2], last[0], epsilon);
    assert cs == cs[..|cs| - 1] + [last];
  }

  lemma LastRestored(cs: seq<Cluster>, last: Cluster, r: Report, epsilon: Micros)
    requires cs != [] && cs[|cs| - 1] == last && |last| > 1 && last[|last| - 1] == r && Obeys(last, epsilon)
    ensures Step(cs[..|cs| - 1] + [last[..|last| - 1]], r, epsilon) == cs
  {
    LastCouldJoin(last, epsilon);
    assert last == last[..|last| - 1] + [r];
    assert cs == (cs[..|cs| - 1] + [last[..|last| - 1]])[|cs| - 1 := last];
  }

  lemma LastCouldJoin(c: Cluster, epsilon: Micros)
    requires |c| > 1 && Obeys(c, epsilon)
    ensures Joins(c[..|c| - 1], c[|c| - 1], epsilon)
  {
    assert c[|c| - 1].diedAt - c[|c| - 2].diedAt <= epsilon;
  }

  lemma ShrinkStaysGreedy(cs: seq<Cluster>, epsilon: Micros)
    requires cs != [] && Greedy(cs, epsilon)
    ensures Greedy(Shrink(cs), epsilon)
  {
    var cs' := Shrink(cs);
    forall i, j | 0 <= i && j == i + 1 < |cs'| ensures !Joins(cs'[i], cs'[j][0], epsilon) {
      assert cs'[i] == cs[i] && cs'[j][0] == cs[j][0];
    }
  }

  /** The sweep is the one division in which every run reaches as far as the limits allow. */
  lemma {:induction false} SweepUnique(cs: seq<Cluster>, s: seq<Report>, epsilon: Micros)
    requires epsilon >= 0 && Ordered(s)
    requires Divides(cs, s, epsilon) && Greedy(cs, epsilon)
    ensures cs == Sweep(s, epsilon)
    decreases |s|
  {
    if s == [] {
    } else {
      ShrinkDivides(cs, s, epsilon);
      StepRestores(cs, s, epsilon);
      SweepUnique(Shrink(cs), s[..|s| - 1], epsilon);
    }
  }

  /** Optimality. No division obeying both limits has fewer runs than the sweep. */
  lemma {:induction false} SweepOptimal(ds: seq<Cluster>, s: seq<Report>, epsilon: Micros)
    requires epsilon >= 0 && Ordered(s) && Divides(ds, s, epsilon)
    ensures
      var cs := Sweep(s, epsilon);
      && |cs| <= |ds|
      && (cs != [] && |cs| == |ds| ==> |cs[|cs| - 1]| <= |ds[|ds| - 1]|)
    decreases |s|
  {
    if s == [] {
    } else {
      var before, r := s[..|s| - 1], s[|s| - 1];
      var last := ds[|ds| - 1];
      ShrinkDivides(ds, s, epsilon);
      SweepOptimal(Shrink(ds), before, epsilon);
      SweepDivides(before, epsilon);
      var out := Sweep(before, epsilon);
      if |last| > 1 && |out| == |ds| && before != [] {
        ShrinkDivides(out, before, epsilon);
        assert Obeys(last, epsilon);
        SuffixTakesToo(s, out[|out| - 1], last, epsilon);
      }
    }
  }

  /** A run no longer than another one less its last report ends where it does, and may take that report too. */
  lemma SuffixTakesToo(s: seq<Report>, mine: Cluster, last: Cluster, epsilon: Micros)
    requires Ordered(s) && 1 < |last| <= |s| && |mine| < |last| && Obeys(last, epsilon)
    requires last == s[|s| - |last|..] && mine == s[|s| - 1 - |mine|..|s| - 1]
    ensures Joins(mine, s[|s| - 1], epsilon)
  {
    assert mine[0] == s[|s| - 1 - |mine|] && last[0] == s[|s| - |last|];
    assert last[0].diedAt <= mine[0].diedAt by {
      assert |mine| + 1 < |last| ==> NotAfter(s[|s| - |last|], s[|s| - 1 - |mine|]);
    }
    assert mine[|mine| - 1] == last[|last| - 2];
    assert last[|last| - 1].diedAt - last[|last| - 2].diedAt <= epsilon;
  }

  // ---------------------------------------------------------------- separation

  ghost predicate Earlier(a: seq<Report>, b: seq<Report>) {
    forall x, y :: x in a && y in b ==> x.diedAt < y.diedAt
  }

  /** Each cluster lies strictly before the next one. */
  ghost predicate Separated(cs: seq<Cluster>) {
    forall i, j :: 0 <= i < j < |cs| ==> Earlier(cs[i], cs[j])
  }

  /** Every report of every cluster is one of `s`, and clusters are ordered inside. */
  ghost predicate DrawnFrom(cs: seq<Cluster>, s: seq<Report>) {
    forall c :: c in cs ==> Ordered(c) && forall r :: r in c ==> r in s
  }

  lemma {:induction false} SweepDrawn(s: seq<Report>, epsilon: Micros)
    requires Ordered(s)
    ensures DrawnFrom(Sweep(s, epsilon), s)
  {
    if s == [] {
    } else {
      var before, r := s[..|s| - 1], s[|s| - 1];
      SweepDrawn(before, epsilon);
      var out := Sweep(before, epsilon);
      assert s == before + [r];
      if out != [] && Joins(out[|out| - 1], r, epsilon) {
        var c := out[|out| - 1];
        assert c in out;
        forall i, j | 0 <= i < j < |c + [r]| ensures NotAfter((c + [r])[i], (c + [r])[j]) {
          assert c[i] in before;
        }
      }
    }
  }

  lemma {:induction false} FlattenMember(cs: seq<Cluster>, r: Report)
    requires r in Flatten(cs)
    ensures exists i :: 0 <= i < |cs| && r in cs[i]
  {
    var front := cs[..|cs| - 1];
    if r in cs[|cs| - 1] {
    } else {
      FlattenMember(front, r);
      var i :| 0 <= i < |front| && r in front[i];
      assert r in cs[i];
    }
  }

  /** A report that does not join the last cluster is strictly later than all of it. */
  lemma RefusedIsLater(c: Cluster, r: Report, epsilon: Micros)
    requires epsilon >= 0 && Ordered(c) && Obeys(c, epsilon) && !Joins(c, r, epsilon)
    requires forall x :: x in c ==> NotAfter(x, r)
    ensures Earlier(c, [r])
  {
    assert c[|c| - 1].diedAt < r.diedAt;
    forall x | x in c ensures x.diedAt <= c[|c| - 1].diedAt {
      var i :| 0 <= i < |c| && c[i] == x;
      assert i < |c| - 1 ==> NotAfter(c[i], c[|c| - 1]);
    }
  }

  lemma StepSeparates(out: seq<Cluster>, r: Report, epsilon: Micros)
    requires epsilon >= 0 && Separated(out)
    requires forall c :: c in out ==> Ordered(c) && Obeys(c, epsilon) && forall x :: x in c ==> NotAfter(x, r)
    ensures Separated(Step(out, r, epsilon))
  {
    var next := Step(out, r, epsilon);
    if out != [] {
      var c, n := out[|out| - 1], |out| - 1;
      assert c in out && c[0] in c;
      forall i | 0 <= i < n ensures Earlier(out[i], [r]) {
        forall x | x in out[i] ensures x.diedAt < r.diedAt {
          assert Earlier(out[i], out[n]);
          assert x.diedAt < c[0].diedAt && NotAfter(c[0], r);
        }
      }
      if !Joins(c, r, epsilon) {
        RefusedIsLater(c, r, epsilon);
      }
      forall i, j | 0 <= i < j < |next| ensures Earlier(next[i], next[j]) {
        if j < n || (j == n && next[j] == out[j]) {
          assert Earlier(out[i], out[j]);
        } else if j == n {
          assert next[j] == c + [r] && Earlier(out[i], out[n]) && Earlier(out[i], [r]);
        }
      }
    }
  }

  /** Reports of one instant are never split, and every cluster ends before the next begins. */
  lemma {:induction false} SweepSeparates(s: seq<Report>, epsilon: Micros)
    requires Ordered(s) && epsilon >= 0
    ensures Separated(Sweep(s, epsilon))
  {
    if s == [] {
    } else {
      var before, r := s[..|s| - 1], s[|s| - 1];
      SweepSeparates(before, epsilon);
      SweepDrawn(before, epsilon);
      SweepDivides(before, epsilon);
      StepSeparates(Sweep(before, epsilon), r, epsilon);
    }
  }

  // ---------------------------------------------------------------- no tolerance at all

  ghost predicate OneEach(cs: seq<Cluster>) {
    forall c :: c in cs ==> |c| == 1
  }

  ghost predicate DifferentInstants(s: seq<Report>) {
    forall i, j :: 0 <= i < j < |s| ==> s[i].diedAt != s[j].diedAt
  }

  lemma {:induction false} SinglesFlatten(cs: seq<Cluster>)
    requires OneEach(cs)
    ensures |Flatten(cs)| == |cs| && forall i :: 0 <= i < |cs| ==> cs[i] == [Flatten(cs)[i]]
  {
    if cs == [] {
    } else {
      var front, last := cs[..|cs| - 1], cs[|cs| - 1];
      SinglesFlatten(front);
      assert last in cs;
      assert Flatten(cs) == Flatten(front) + last;
    }
  }

  /** With no tolerance, reports of different instants never join. */
  lemma {:induction false} DifferentAreSingles(s: seq<Report>)
    requires Ordered(s) && DifferentInstants(s)
    ensures OneEach(Sweep(s, 0))
  {
    if s == [] {
    } else {
      var before, r := s[..|s| - 1], s[|s| - 1];
      DifferentAreSingles(before);
      SweepDivides(before, 0);
      var cs := Sweep(before, 0);
      SinglesFlatten(cs);
      if cs != [] {
        assert cs[|cs| - 1] == [s[|s| - 2]];
        assert NotAfter(s[|s| - 2], r);
      }
    }
  }

  /** With no tolerance every report is its own kill exactly when no two are of one instant. */
  lemma SinglesExactly(s: seq<Report>)
    requires Ordered(s)
    ensures OneEach(Sweep(s, 0)) <==> DifferentInstants(s)
  {
    var cs := Sweep(s, 0);
    if OneEach(cs) {
      SweepDivides(s, 0);
      SinglesFlatten(cs);
      SweepSeparates(s, 0);
      forall i, j | 0 <= i < j < |s| ensures s[i].diedAt != s[j].diedAt {
        assert Earlier(cs[i], cs[j]);
        assert s[i] in cs[i] && s[j] in cs[j];
      }
    } else if DifferentInstants(s) {
      DifferentAreSingles(s);
    }
  }

  lemma DifferentFromTheRest(r: Report, s: seq<Report>)
    ensures DifferentInstants([r] + s) <==> DifferentInstants(s) && forall x :: x in s ==> x.diedAt != r.diedAt
  {
    var all := [r] + s;
    if DifferentInstants(all) {
      forall i, j | 0 <= i < j < |s| ensures s[i].diedAt != s[j].diedAt {
        assert all[i + 1] == s[i] && all[j + 1] == s[j];
      }
      forall x | x in s ensures x.diedAt != r.diedAt {
        var i :| 0 <= i < |s| && s[i] == x;
        assert all[0] == r && all[i + 1] == x;
      }
    }
  }

  lemma {:induction false} InsertKeepsDifference(r: Report, s: seq<Report>)
    requires Ordered(s)
    ensures DifferentInstants(Insert(r, s)) <==> DifferentInstants([r] + s)
  {
    if s == [] || NotAfter(r, s[0]) {
    } else {
      var rest := s[1..];
      InsertOrdered(r, rest);
      InsertKeepsDifference(r, rest);
      assert s == [s[0]] + rest;
      forall x ensures x in Insert(r, rest) <==> x == r || x in rest {
        assert x in Insert(r, rest) <==> x in multiset(Insert(r, rest));
      }
      DifferentFromTheRest(s[0], Insert(r, rest));
      DifferentFromTheRest(r, rest);
      DifferentFromTheRest(s[0], rest);
      DifferentFromTheRest(r, s);
    }
  }

  lemma {:induction false} SortKeepsDifference(s: seq<Report>)
    ensures DifferentInstants(Sort(s)) <==> DifferentInstants(s)
  {
    if s == [] {
    } else {
      var rest := s[1..];
      SortKeepsDifference(rest);
      SortOrdered(rest);
      InsertKeepsDifference(s[0], Sort(rest));
      DifferentFromTheRest(s[0], Sort(rest));
      DifferentFromTheRest(s[0], rest);
      assert s == [s[0]] + rest;
    }
  }

  /** The same of reports in whatever order they were filed. */
  lemma OwnKillExactly(reports: seq<Report>)
    ensures OneEach(Group(reports, 0)) <==> DifferentInstants(reports)
  {
    SortOrdered(reports);
    SinglesExactly(Sort(reports));
    SortKeepsDifference(reports);
  }

  /** Two people who saw the same second are one kill, tolerance or none. */
  lemma SameInstantIsOneKill(a: Report, b: Report)
    requires a.diedAt == b.diedAt && a.id < b.id
    ensures Group([a, b], 0) == [[a, b]] && !OneEach(Group([a, b], 0))
  {
    assert [a, b][1..] == [b] && Sort([b]) == [b];
    assert Sort([a, b]) == [a, b];
    assert [a, b][..1] == [a] && [a][..0] == [];
    assert Sweep([a], 0) == [[a]];
    assert [a] + [b] == [a, b];
  }
}
