/** Sorting is a function of the set of rows, never of the order they were read in. */
module SortProperties {
  import opened ConsensusTypes
  import opened Clusters

  /** The primary key of the report log: an id names one row. It also holds of a row read twice. */
  ghost predicate KeyedById(s: seq<Report>) {
    forall x, y :: x in s && y in s && x.id == y.id ==> x == y
  }

  lemma {:induction false} InsertOrdered(r: Report, s: seq<Report>)
    requires Ordered(s)
    ensures Ordered(Insert(r, s))
    ensures multiset(Insert(r, s)) == multiset([r]) + multiset(s)
  {
    if s == [] || NotAfter(r, s[0]) {
    } else {
      InsertOrdered(r, s[1..]);
      assert s == [s[0]] + s[1..];
      forall x | x in Insert(r, s[1..]) ensures NotAfter(s[0], x) {
        assert x in multiset(Insert(r, s[1..]));
      }
    }
  }

  lemma {:induction false} SortOrdered(s: seq<Report>)
    ensures Ordered(Sort(s))
    ensures multiset(Sort(s)) == multiset(s)
    ensures forall r :: r in Sort(s) <==> r in s
    ensures |Sort(s)| == |s|
  {
    if s == [] {
    } else {
      SortOrdered(s[1..]);
      InsertOrdered(s[0], Sort(s[1..]));
      assert s == [s[0]] + s[1..];
    }
    forall r ensures r in Sort(s) <==> r in s {
      assert r in Sort(s) <==> r in multiset(Sort(s));
      assert r in s <==> r in multiset(s);
    }
    assert |multiset(Sort(s))| == |multiset(s)|;
  }

  lemma {:induction false} OrderedUnique(a: seq<Report>, b: seq<Report>)
    requires Ordered(a) && Ordered(b)
    requires multiset(a) == multiset(b)
    requires KeyedById(a)
    ensures a == b
  {
    if a == [] {
      assert |multiset(b)| == 0;
    } else {
      assert a[0] in multiset(b) && |multiset(b)| == |a|;
      assert b[0] in multiset(a);
      assert a[0] == b[0];
      assert a == [a[0]] + a[1..] && b == [b[0]] + b[1..];
      assert multiset(a[1..]) == multiset(a) - multiset([a[0]]);
      assert multiset(b[1..]) == multiset(b) - multiset([b[0]]);
      OrderedUnique(a[1..], b[1..]);
    }
  }

  lemma SortPermutation(a: seq<Report>, b: seq<Report>)
    requires multiset(a) == multiset(b)
    requires KeyedById(a)
    ensures Sort(a) == Sort(b)
  {
    SortOrdered(a);
    SortOrdered(b);
    OrderedUnique(Sort(a), Sort(b));
  }
}
