/** Cursor paging over the catalogue, one page a snapshot. */
module Paging {
  import opened Core
  import opened CatalogueTypes
  import Resolve
  import Ladder

  /** No expansion, no zone and no query are the empty string. */
  datatype ListFilter = ListFilter(expansion: string, zone: string, query: string, includeRetired: bool)

  datatype Page = Page(entries: seq<Listed>, nextCursor: Option<TargetId>, hasMore: bool, total: nat)

  /** The search box is the substring rung of the ladder, without its liveness guard. */
  predicate MatchesQuery(text: Text, t: Listed, query: string) {
    Resolve.Contains(t.target.nameNorm, query) || exists a | a in Norms(text, t.aliases) :: Resolve.Contains(a, query)
  }

  predicate Wanted(text: Text, filter: ListFilter, t: Listed) {
    var query, zone := text.normalise(filter.query), text.normalise(filter.zone);
    && (filter.includeRetired || t.target.state == Active)
    && (filter.expansion == "" || t.target.expansion == filter.expansion)
    && (zone == "" || t.target.zoneNorm == zone)
    && (query == "" || MatchesQuery(text, t, query))
  }

  function Insert(s: seq<Listed>, t: Listed): seq<Listed> {
    if s == [] || t.target.id < s[0].target.id then [t] + s else [s[0]] + Insert(s[1..], t)
  }

  /** The library sort, by id. */
  function SortById(s: seq<Listed>): seq<Listed> {
    if s == [] then [] else Insert(SortById(s[1..]), s[0])
  }

  predicate After(cursor: Option<TargetId>, t: Listed) {
    cursor.None? || t.target.id > cursor.value
  }

  function Remaining(text: Text, targets: seq<Listed>, filter: ListFilter, cursor: Option<TargetId>): seq<Listed> {
    Filter((t: Listed) => After(cursor, t), SortById(Filter((t: Listed) => Wanted(text, filter, t), targets)))
  }

  function Cut(remaining: seq<Listed>, limit: int): Page {
    if 0 < limit < |remaining|
    then Page(remaining[..limit], Some(remaining[limit - 1].target.id), true, |remaining|)
    else Page(remaining, None, false, |remaining|)
  }

  function ListPage(text: Text, targets: seq<Listed>, filter: ListFilter, cursor: Option<TargetId>, limit: int): Page {
    Cut(Remaining(text, targets, filter, cursor), limit)
  }

  method Select(text: Text, targets: seq<Listed>, filter: ListFilter) returns (matched: seq<Listed>)
    ensures matched == Filter((t: Listed) => Wanted(text, filter, t), targets)
  {
    var wanted := (t: Listed) => Wanted(text, filter, t);
    matched := [];
    for i := 0 to |targets|
      invariant matched == Filter(wanted, targets[..i])
    {
      FilterAppend(wanted, targets[..i], [targets[i]]);
      assert targets[..i + 1] == targets[..i] + [targets[i]];
      if Wanted(text, filter, targets[i]) {
        matched := matched + [targets[i]];
      }
    }
    assert targets[..|targets|] == targets;
  }

  method DeleteThrough(matched: seq<Listed>, cursor: Option<TargetId>) returns (kept: seq<Listed>)
    ensures kept == Filter((t: Listed) => After(cursor, t), matched)
  {
    var after := (t: Listed) => After(cursor, t);
    if cursor.None? {
      FilterAll(after, matched);
      return matched;
    }
    kept := [];
    for i := 0 to |matched|
      invariant kept == Filter(after, matched[..i])
    {
      FilterAppend(after, matched[..i], [matched[i]]);
      assert matched[..i + 1] == matched[..i] + [matched[i]];
      if matched[i].target.id > cursor.value {
        kept := kept + [matched[i]];
      }
    }
    assert matched[..|matched|] == matched;
  }

  method ListIn(
    text: Text, targets: seq<Listed>, filter: ListFilter, cursor: Option<TargetId>, limit: int
  ) returns (page: Page)
    ensures page == ListPage(text, targets, filter, cursor, limit)
  {
    var matched := Select(text, targets, filter);
    matched := SortById(matched);
    matched := DeleteThrough(matched, cursor);
    var size := if limit <= 0 then |matched| else limit;
    page := Page(matched, None, false, |matched|);
    if |matched| > size {
      page := page.(hasMore := true, entries := matched[..size]);
    }
    if |page.entries| > 0 && page.hasMore {
      page := page.(nextCursor := Some(page.entries[|page.entries| - 1].target.id));
    }
  }

  // ---------------------------------------------------------------- one page

  /** The primary key. */
  ghost predicate Keyed(targets: seq<Listed>) {
    forall i, j :: 0 <= i < j < |targets| ==> targets[i].target.id != targets[j].target.id
  }

  ghost predicate Increasing(s: seq<Listed>) {
    forall i, j :: 0 <= i < j < |s| ==> s[i].target.id < s[j].target.id
  }

  lemma {:induction false} InsertInOrder(s: seq<Listed>, t: Listed)
    requires Increasing(s) && forall x :: x in s ==> x.target.id != t.target.id
    ensures Increasing(Insert(s, t)) && forall x :: x in Insert(s, t) <==> x == t || x in s
  {
    if s != [] && t.target.id > s[0].target.id {
      InsertInOrder(s[1..], t);
      assert s == [s[0]] + s[1..];
      var rest := Insert(s[1..], t);
      forall i | 0 <= i < |rest| ensures s[0].target.id < rest[i].target.id {
        assert rest[i] in rest;
      }
    } else {
      assert forall x :: x in [t] + s <==> x == t || x in s;
    }
  }

  lemma {:induction false} SortedInOrder(s: seq<Listed>)
    requires Keyed(s)
    ensures Increasing(SortById(s)) && forall x :: x in SortById(s) <==> x in s
  {
    if s == [] {
    } else {
      SortedInOrder(s[1..]);
      InsertInOrder(SortById(s[1..]), s[0]);
      assert s == [s[0]] + s[1..];
    }
  }

  lemma {:induction false} FilterStaysKeyed(p: Listed -> bool, s: seq<Listed>)
    requires Keyed(s)
    ensures Keyed(Filter(p, s))
  {
    if s == [] {
    } else {
      FilterStaysKeyed(p, s[1..]);
      var rest := Filter(p, s[1..]);
      forall i | 0 <= i < |rest| ensures rest[i].target.id != s[0].target.id {
        assert rest[i] in s[1..];
      }
    }
  }

  lemma {:induction false} FilterStaysIncreasing(p: Listed -> bool, s: seq<Listed>)
    requires Increasing(s)
    ensures Increasing(Filter(p, s))
  {
    if s == [] {
    } else {
      FilterStaysIncreasing(p, s[1..]);
      var rest := Filter(p, s[1..]);
      forall i | 0 <= i < |rest| ensures s[0].target.id < rest[i].target.id {
        assert rest[i] in s[1..];
      }
    }
  }

  /** What is left to list: the wanted targets past the cursor, each once, in id order. */
  lemma RemainingIs(text: Text, targets: seq<Listed>, filter: ListFilter, cursor: Option<TargetId>)
    requires Keyed(targets)
    ensures Increasing(Remaining(text, targets, filter, cursor))
    ensures forall t :: t in Remaining(text, targets, filter, cursor) <==>
            t in targets && Wanted(text, filter, t) && After(cursor, t)
  {
    var wanted := (t: Listed) => Wanted(text, filter, t);
    FilterStaysKeyed(wanted, targets);
    SortedInOrder(Filter(wanted, targets));
    FilterStaysIncreasing((t: Listed) => After(cursor, t), SortById(Filter(wanted, targets)));
  }

  /** A page lists what is wanted up to where the next one starts, and a page that says there is more is full. */
  lemma PageIs(text: Text, targets: seq<Listed>, filter: ListFilter, cursor: Option<TargetId>, limit: int)
    requires Keyed(targets)
    ensures
      var page := ListPage(text, targets, filter, cursor, limit);
      && Increasing(page.entries)
      && (forall t :: t in page.entries <==>
            t in targets && Wanted(text, filter, t) && After(cursor, t)
              && (page.hasMore ==> t.target.id <= page.nextCursor.value))
      && (page.hasMore <==> page.nextCursor.Some?)
      && (page.hasMore ==> |page.entries| == limit > 0 && page.nextCursor == Some(page.entries[limit - 1].target.id))
  {
    RemainingIs(text, targets, filter, cursor);
    var remaining, page := Remaining(text, targets, filter, cursor), ListPage(text, targets, filter, cursor, limit);
    forall t | t in remaining && page.hasMore && t.target.id <= page.nextCursor.value ensures t in page.entries {
      var i :| 0 <= i < |remaining| && remaining[i] == t;
      assert i < limit;
      assert page.entries[i] == t;
    }
  }

  // ---------------------------------------------------------------- a walk of pages

  /** Page `i` of a walk: each page is read from its own snapshot, from where the one before left off. */
  function PageAt(text: Text, snaps: seq<seq<Listed>>, filter: ListFilter, limit: int, i: nat): Page
    requires i < |snaps|
  {
    ListPage(text, snaps[i], filter, CursorAt(text, snaps, filter, limit, i), limit)
  }

  function CursorAt(text: Text, snaps: seq<seq<Listed>>, filter: ListFilter, limit: int, i: nat): Option<TargetId>
    requires i <= |snaps|
    decreases i, 0
  {
    if i == 0 then None
    else ListPage(text, snaps[i - 1], filter, CursorAt(text, snaps, filter, limit, i - 1), limit).nextCursor
  }

  /** Everything the first `n` pages listed. */
  function ListedBy(text: Text, snaps: seq<seq<Listed>>, filter: ListFilter, limit: int, n: nat): seq<Listed>
    requires n <= |snaps|
  {
    if n == 0 then []
    else ListedBy(text, snaps, filter, limit, n - 1) + PageAt(text, snaps, filter, limit, n - 1).entries
  }

  ghost predicate AllKeyed(snaps: seq<seq<Listed>>) {
    forall i :: 0 <= i < |snaps| ==> Keyed(snaps[i])
  }

  /** The walk went on: every page before `n` said there was more. */
  ghost predicate WentOn(text: Text, snaps: seq<seq<Listed>>, filter: ListFilter, limit: int, n: nat) {
    n <= |snaps| && forall i :: 0 <= i < n ==> PageAt(text, snaps, filter, limit, i).hasMore
  }

  /** This id names a wanted target in each of the first `n` snapshots, whatever else about it changes. */
  ghost predicate WantedThroughout(text: Text, snaps: seq<seq<Listed>>, filter: ListFilter, n: nat, id: TargetId)
    requires n <= |snaps|
  {
    forall i :: 0 <= i < n ==> WantedIn(text, snaps[i], filter, id)
  }

  ghost predicate WantedIn(text: Text, targets: seq<Listed>, filter: ListFilter, id: TargetId) {
    exists t :: t in targets && t.target.id == id && Wanted(text, filter, t)
  }

  ghost predicate Lists(s: seq<Listed>, id: TargetId) {
    exists t :: t in s && t.target.id == id
  }

  ghost predicate Upto(s: seq<Listed>, cursor: Option<TargetId>) {
    (s != [] ==> cursor.Some?) && forall t :: t in s ==> cursor.Some? && t.target.id <= cursor.value
  }

  /** `id` falls to this page: past where it starts, and not past where the next one does. */
  ghost predicate FallsTo(page: Page, cursor: Option<TargetId>, id: TargetId) {
    (cursor.None? || id > cursor.value) && (page.hasMore ==> page.nextCursor.Some? && id <= page.nextCursor.value)
  }

  lemma OnePageMore(
    text: Text, targets: seq<Listed>, filter: ListFilter, limit: int, cursor: Option<TargetId>, listed: seq<Listed>,
    page: Page
  )
    requires Keyed(targets) && Increasing(listed) && Upto(listed, cursor)
    requires page == ListPage(text, targets, filter, cursor, limit)
    ensures Increasing(listed + page.entries)
    ensures page.hasMore ==>
            page.nextCursor.Some? && |page.entries| == limit > 0 && Upto(listed + page.entries, page.nextCursor)
    ensures forall id :: Lists(listed, id) ==> Lists(listed + page.entries, id)
    ensures forall id: TargetId :: WantedIn(text, targets, filter, id) && FallsTo(page, cursor, id) ==>
            Lists(listed + page.entries, id)
  {
    PageIs(text, targets, filter, cursor, limit);
    forall i, j | 0 <= i < |listed| && 0 <= j < |page.entries| ensures listed[i].target.id < page.entries[j].target.id {
      assert listed[i] in listed && page.entries[j] in page.entries;
    }
    if page.hasMore {
      forall t | t in listed + page.entries ensures t.target.id <= page.nextCursor.value {
        if t in listed {
          var i :| 0 <= i < |listed| && listed[i] == t;
          assert listed[i].target.id < page.entries[limit - 1].target.id;
        }
      }
    }
    forall id | Lists(listed, id) ensures Lists(listed + page.entries, id) {
      var t :| t in listed && t.target.id == id;
      assert t in listed + page.entries;
    }
    forall id: TargetId | WantedIn(text, targets, filter, id) && FallsTo(page, cursor, id)
      ensures Lists(listed + page.entries, id)
    {
      var t :| t in targets && t.target.id == id && Wanted(text, filter, t);
      assert t in page.entries;
      assert t in listed + page.entries;
    }
  }

  /** Where a walk stands: in order, never past its cursor, with nothing before the cursor missed. */
  ghost predicate Stands(
    text: Text, snaps: seq<seq<Listed>>, filter: ListFilter, limit: int, n: nat, cursor: Option<TargetId>,
    listed: seq<Listed>
  )
    requires n <= |snaps|
  {
    && (cursor.Some? <==> n > 0)
    && Increasing(listed) && Upto(listed, cursor) && |listed| == n * Max(limit, 0)
    && forall id: TargetId :: WantedThroughout(text, snaps, filter, n, id) && cursor.Some? && id <= cursor.value ==>
       Lists(listed, id)
  }

  lemma StandsOneMore(
    text: Text, snaps: seq<seq<Listed>>, filter: ListFilter, limit: int, n: nat, before: nat,
    cursor: Option<TargetId>, listed: seq<Listed>, page: Page
  )
    requires n == before + 1 <= |snaps| && Keyed(snaps[before])
    requires Stands(text, snaps, filter, limit, before, cursor, listed)
    requires page == ListPage(text, snaps[before], filter, cursor, limit)
    ensures Increasing(listed + page.entries)
    ensures page.hasMore ==> Stands(text, snaps, filter, limit, n, page.nextCursor, listed + page.entries)
    ensures !page.hasMore ==> forall id :: WantedThroughout(text, snaps, filter, n, id) ==>
            Lists(listed + page.entries, id)
  {
    OnePageMore(text, snaps[before], filter, limit, cursor, listed, page);
    Distribute(before, 1, Max(limit, 0));
    forall id: TargetId | WantedThroughout(text, snaps, filter, n, id) && (page.hasMore ==> id <= page.nextCursor.value)
      ensures Lists(listed + page.entries, id)
    {
      assert WantedIn(text, snaps[before], filter, id) && WantedThroughout(text, snaps, filter, before, id);
      assert FallsTo(page, cursor, id) || Lists(listed, id);
    }
  }

  lemma {:induction false} WalkStands(
    text: Text, snaps: seq<seq<Listed>>, filter: ListFilter, limit: int, n: nat, cursor: Option<TargetId>,
    listed: seq<Listed>
  )
    requires AllKeyed(snaps) && WentOn(text, snaps, filter, limit, n)
    requires cursor == CursorAt(text, snaps, filter, limit, n) && listed == ListedBy(text, snaps, filter, limit, n)
    ensures Stands(text, snaps, filter, limit, n, cursor, listed)
  {
    if n == 0 {
    } else {
      var cursor', listed' := CursorAt(text, snaps, filter, limit, n - 1), ListedBy(text, snaps, filter, limit, n - 1);
      WalkStands(text, snaps, filter, limit, n - 1, cursor', listed');
      assert Keyed(snaps[n - 1]);
      var page := PageAt(text, snaps, filter, limit, n - 1);
      assert page.hasMore;
      StandsOneMore(text, snaps, filter, limit, n, n - 1, cursor', listed', page);
    }
  }

  /**
   * Following the cursor until there is no more lists every target wanted throughout, exactly once and in id order,
   * whatever was added, retired or renamed between the pages.
   */
  lemma WalkIsExact(text: Text, snaps: seq<seq<Listed>>, filter: ListFilter, limit: int, n: nat)
    requires 0 < n <= |snaps| && AllKeyed(snaps) && WentOn(text, snaps, filter, limit, n - 1)
    requires !PageAt(text, snaps, filter, limit, n - 1).hasMore
    ensures Increasing(ListedBy(text, snaps, filter, limit, n))
    ensures forall id :: WantedThroughout(text, snaps, filter, n, id) ==>
            Lists(ListedBy(text, snaps, filter, limit, n), id)
  {
    var cursor, listed := CursorAt(text, snaps, filter, limit, n - 1), ListedBy(text, snaps, filter, limit, n - 1);
    WalkStands(text, snaps, filter, limit, n - 1, cursor, listed);
    assert Keyed(snaps[n - 1]);
    StandsOneMore(text, snaps, filter, limit, n, n - 1, cursor, listed, PageAt(text, snaps, filter, limit, n - 1));
  }

  lemma HeadIsLeast(s: seq<Listed>, t: Listed)
    requires s != [] && Increasing(s)
    ensures t in s[1..] <==> t in s && t != s[0]
  {
    if t in s[1..] {
      var i :| 0 <= i < |s| - 1 && s[1..][i] == t;
      assert s[0].target.id < s[i + 1].target.id;
    }
    assert s == [s[0]] + s[1..];
  }

  lemma {:induction false} SameIncreasing(a: seq<Listed>, b: seq<Listed>)
    requires Increasing(a) && Increasing(b) && forall t :: t in a <==> t in b
    ensures a == b
  {
    assert |a| > 0 ==> a[0] in a;
    assert |b| > 0 ==> b[0] in b;
    if a == [] || b == [] {
    } else {
      assert a[0] in b && b[0] in a;
      assert a[0].target.id == b[0].target.id;
      var i :| 0 <= i < |b| && b[i] == a[0];
      assert i == 0;
      assert a == [a[0]] + a[1..] && b == [b[0]] + b[1..];
      forall t ensures t in a[1..] <==> t in b[1..] {
        HeadIsLeast(a, t);
        HeadIsLeast(b, t);
      }
      SameIncreasing(a[1..], b[1..]);
    }
  }

  /** Over a catalogue nobody touches, the pages laid end to end are the one unlimited page. */
  lemma PagesMakeTheWhole(
    text: Text, snaps: seq<seq<Listed>>, targets: seq<Listed>, filter: ListFilter, limit: int, n: nat
  )
    requires 0 < n <= |snaps| && WentOn(text, snaps, filter, limit, n - 1)
             && !PageAt(text, snaps, filter, limit, n - 1).hasMore
    requires Keyed(targets) && forall i :: 0 <= i < |snaps| ==> snaps[i] == targets
    ensures ListedBy(text, snaps, filter, limit, n) == ListPage(text, targets, filter, None, 0).entries
  {
    var listed, whole := ListedBy(text, snaps, filter, limit, n), ListPage(text, targets, filter, None, 0).entries;
    WalkIsExact(text, snaps, filter, limit, n);
    ListedAreThere(text, snaps, filter, limit, n);
    PageIs(text, targets, filter, None, 0);
    forall t | t in whole ensures t in listed {
      assert forall i :: 0 <= i < n ==> WantedIn(text, snaps[i], filter, t.target.id);
      assert WantedThroughout(text, snaps, filter, n, t.target.id);
      var u :| u in listed && u.target.id == t.target.id;
      assert WantedOnce(text, snaps, filter, n, u);
      assert u in targets && t in targets;
    }
    forall t | t in listed ensures t in whole {
      assert WantedOnce(text, snaps, filter, n, t);
    }
    SameIncreasing(listed, whole);
  }

  /** And it ends: every page but the last is full of ids not listed before, so `ids` allow only so many pages. */
  lemma WalkEnds(text: Text, snaps: seq<seq<Listed>>, filter: ListFilter, limit: int, n: nat, ids: set<TargetId>)
    requires AllKeyed(snaps) && WentOn(text, snaps, filter, limit, n)
    requires forall i, t :: 0 <= i < n && t in snaps[i] ==> t.target.id in ids
    ensures n * Max(limit, 0) <= |ids| && (n > 0 ==> limit > 0)
  {
    var listed := ListedBy(text, snaps, filter, limit, n);
    WalkStands(text, snaps, filter, limit, n, CursorAt(text, snaps, filter, limit, n), listed);
    ListedAreThere(text, snaps, filter, limit, n);
    if n > 0 {
      assert PageAt(text, snaps, filter, limit, n - 1).hasMore;
    }
    forall t | t in listed ensures t.target.id in ids {
      assert WantedOnce(text, snaps, filter, n, t);
    }
    DifferentIds(listed);
    SubsetSize(IdsOf(listed), ids);
  }

  function IdsOf(s: seq<Listed>): set<TargetId> {
    set t | t in s :: t.target.id
  }

  /** A listing in id order has as many different ids as entries. */
  lemma {:induction false} DifferentIds(s: seq<Listed>)
    requires Increasing(s)
    ensures |IdsOf(s)| == |s|
  {
    if s == [] {
    } else {
      var front, last := s[..|s| - 1], s[|s| - 1];
      DifferentIds(front);
      assert s == front + [last];
      forall t | t in front ensures t.target.id < last.target.id {
        var i :| 0 <= i < |front| && front[i] == t;
        assert s[i].target.id < s[|s| - 1].target.id;
      }
      assert IdsOf(s) == IdsOf(front) + {last.target.id};
    }
  }

  /** Nothing is listed that was not wanted on its page. */
  lemma {:induction false} ListedAreThere(text: Text, snaps: seq<seq<Listed>>, filter: ListFilter, limit: int, n: nat)
    requires AllKeyed(snaps) && n <= |snaps|
    ensures forall t :: t in ListedBy(text, snaps, filter, limit, n) ==> WantedOnce(text, snaps, filter, n, t)
  {
    if n == 0 {
    } else {
      var listed, page := ListedBy(text, snaps, filter, limit, n - 1), PageAt(text, snaps, filter, limit, n - 1);
      ListedAreThere(text, snaps, filter, limit, n - 1);
      assert Keyed(snaps[n - 1]);
      PageIs(text, snaps[n - 1], filter, CursorAt(text, snaps, filter, limit, n - 1), limit);
      forall t | t in listed + page.entries ensures WantedOnce(text, snaps, filter, n, t) {
        if t in page.entries {
          assert t in snaps[n - 1];
        } else {
          assert WantedOnce(text, snaps, filter, n - 1, t);
        }
      }
    }
  }

  ghost predicate WantedOnce(text: Text, snaps: seq<seq<Listed>>, filter: ListFilter, n: nat, t: Listed)
    requires n <= |snaps|
  {
    Wanted(text, filter, t) && exists i :: 0 <= i < n && t in snaps[i]
  }

  /** The total counts what follows the cursor: on any page but the first it is short by all that came before. */
  lemma TotalCountsFromTheCursor(text: Text, targets: seq<Listed>, filter: ListFilter, cursor: TargetId, limit: int)
    requires Keyed(targets)
    ensures
      var all := ListPage(text, targets, filter, None, 0);
      var before := Filter((t: Listed) => t.target.id <= cursor, all.entries);
      && ListPage(text, targets, filter, None, limit).total == |all.entries|
      && ListPage(text, targets, filter, Some(cursor), limit).total == |all.entries| - |before|
  {
    var sorted := SortById(Filter((t: Listed) => Wanted(text, filter, t), targets));
    FilterAll((t: Listed) => After(None, t), sorted);
    FilterSplits((t: Listed) => t.target.id <= cursor, (t: Listed) => After(Some(cursor), t), sorted);
  }

  lemma {:induction false} FilterSplits(p: Listed -> bool, q: Listed -> bool, s: seq<Listed>)
    requires forall t :: p(t) != q(t)
    ensures |Filter(p, s)| + |Filter(q, s)| == |s|
  {
    if s == [] {
    } else {
      FilterSplits(p, q, s[1..]);
    }
  }

  // ---------------------------------------------------------------- which targets are listed

  /** What a listing asks for, said of the tables: state, expansion, zone, and a spelling with the query in it. */
  ghost predicate AskedFor(text: Text, names: Names, filter: ListFilter, id: TargetId)
    requires id in names.targets
  {
    var t, zone, query := names.targets[id], text.normalise(filter.zone), text.normalise(filter.query);
    && (t.state == Retired ==> filter.includeRetired)
    && (filter.expansion != "" ==> t.expansion == filter.expansion)
    && (zone != "" ==> t.zoneNorm == zone)
    && (query != "" ==>
          Ladder.Inside(t.nameNorm, query)
          || exists s :: s in names.aliases && names.aliases[s].target == id && Ladder.Inside(s, query))
  }

  lemma WantedExactly(text: Text, names: Names, filter: ListFilter, t: Listed)
    requires Resolve.Normalised(text, names) && Resolve.ListedFrom(names, t)
    ensures Wanted(text, filter, t) <==> AskedFor(text, names, filter, t.target.id)
  {
    var query := text.normalise(filter.query);
    forall s ensures s in Norms(text, t.aliases) <==> s in names.aliases && names.aliases[s].target == t.target.id {
      Ladder.ListedSpellings(text, names, t, s);
    }
    forall s ensures Ladder.Inside(s, query) <==> Resolve.Contains(s, query) {
      Ladder.InsideIsContained(s, query);
    }
  }

  /** An unlimited listing has exactly the targets asked for. */
  lemma ListsExactly(text: Text, names: Names, targets: seq<Listed>, filter: ListFilter, id: TargetId)
    requires Resolve.Normalised(text, names) && Resolve.Loads(names, targets)
    ensures (exists t :: t in ListPage(text, targets, filter, None, 0).entries && t.target.id == id)
            <==> id in names.targets && AskedFor(text, names, filter, id)
  {
    var entries := ListPage(text, targets, filter, None, 0).entries;
    LoadedIsKeyed(names, targets);
    PageIs(text, targets, filter, None, 0);
    if t :| t in entries && t.target.id == id {
      assert t in targets;
      WantedExactly(text, names, filter, t);
    }
    if id in names.targets && AskedFor(text, names, filter, id) {
      var k :| 0 <= k < |targets| && targets[k].target.id == id;
      assert Resolve.ListedFrom(names, targets[k]);
      WantedExactly(text, names, filter, targets[k]);
      assert targets[k] in entries;
    }
  }

  lemma LoadedIsKeyed(names: Names, targets: seq<Listed>)
    requires Resolve.Loads(names, targets)
    ensures Keyed(targets)
  {
  }
}
