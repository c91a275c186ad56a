/** Whether polling a fixed source comes to an end, told from the catalog, the cursor and the limit alone
  * (packages/connector-sdk/src/dedupe.ts).
  */
module Ending {
  import opened Wrappers
  import opened Counting
  import opened Dedupe
  import opened DedupePages
  import opened DedupeCap
  import opened Drain
  import opened TimestampDrain
  import opened CrowdedInstant
  import opened Starvation

  // ---- the condition ----

  /** One mark for each id a cursor remembers, oldest first: whether it shares the boundary. */
  type Marks = seq<bool>

  function Marked(ids: seq<Id>, live: set<Id>): (r: Marks)
    ensures |r| == |ids| && forall i :: 0 <= i < |ids| ==> (r[i] <==> ids[i] in live)
  {
    seq(|ids|, i requires 0 <= i < |ids| => ids[i] in live)
  }

  function AllMarked(n: nat): (r: Marks)
    ensures |r| == n && forall i :: 0 <= i < n ==> r[i]
  {
    seq(n, i => true)
  }

  function Count(marks: Marks): nat {
    if marks == [] then 0 else Count(marks[..|marks| - 1]) + if marks[|marks| - 1] then 1 else 0
  }

  /** How many marks the list ends with. */
  function CountLast(marks: Marks): nat {
    if marks == [] || !marks[|marks| - 1] then 0 else 1 + CountLast(marks[..|marks| - 1])
  }

  /** What the cap leaves of them. */
  function LastMarks(marks: Marks): Marks {
    if |marks| > MAX_BOUNDARY_IDS then marks[|marks| - MAX_BOUNDARY_IDS..] else marks
  }

  /** The instant a page of `limit` ends at, if the cursor knows `g` ids of its boundary `t`. */
  ghost function LastOf(catalog: seq<Item>, t: Instant, g: nat, limit: nat): Instant
    requires Readable(catalog) && limit >= 1 && g + limit <= |From(catalog, t)|
  {
    From(catalog, t)[g + limit - 1].at
  }

  /** How many ids the next cursor remembers if that is another instant. */
  ghost function Arrived(catalog: seq<Item>, t: Instant, g: nat, limit: nat): nat
    requires Readable(catalog) && limit >= 1 && g + limit <= |From(catalog, t)|
  {
    var there := IdsAt(From(catalog, t)[..g + limit], LastOf(catalog, t, g, limit));
    Least(|WithoutStamp(catalog)| + |there|, MAX_BOUNDARY_IDS)
  }

  /** Polls end where a page takes all that is left. Where it does not, the boundary stays, for good once 500 marks end
    * the list; or it moves, and the cursor starts anew with what it delivered there and every item without a stamp.
    */
  ghost predicate EndsByMarks(catalog: seq<Item>, t: Instant, marks: Marks, limit: nat)
    requires Catalog(catalog) && limit >= 1
    decreases |Later(catalog, t)|, MAX_BOUNDARY_IDS - Least(CountLast(marks), MAX_BOUNDARY_IDS)
  {
    var n := Count(marks) + limit;
    if |From(catalog, t)| <= n then true
    else
      var u := LastOf(catalog, t, Count(marks), limit);
      LastIsLater(catalog, t, n - 1);
      if u == t then
        LastMarksGrow(marks, limit);
        CountLast(marks) < MAX_BOUNDARY_IDS && EndsByMarks(catalog, t, LastMarks(marks + AllMarked(limit)), limit)
      else EndsByMarks(catalog, u, AllMarked(Arrived(catalog, t, Count(marks), limit)), limit)
  }

  /** The same for a cursor whose ids all share the boundary: their number is enough. */
  ghost predicate EndsByCount(catalog: seq<Item>, t: Instant, g: nat, limit: nat)
    requires Catalog(catalog) && limit >= 1
    decreases |Later(catalog, t)|, MAX_BOUNDARY_IDS - Least(g, MAX_BOUNDARY_IDS)
  {
    if |From(catalog, t)| <= g + limit then true
    else
      var u := LastOf(catalog, t, g, limit);
      LastIsLater(catalog, t, g + limit - 1);
      if u == t then g < MAX_BOUNDARY_IDS && EndsByCount(catalog, t, Least(g + limit, MAX_BOUNDARY_IDS), limit)
      else EndsByCount(catalog, u, Arrived(catalog, t, g, limit), limit)
  }

  lemma LastIsLater(catalog: seq<Item>, t: Instant, i: nat)
    requires Catalog(catalog) && i < |From(catalog, t)|
    ensures
      var u := From(catalog, t)[i].at;
      u == t || (u > t && |Later(catalog, u)| < |Later(catalog, t)|)
  {
    BacklogStamps(catalog, State(t, []), i);
    var u := From(catalog, t)[i].at;
    if u > t {
      FewerLater(catalog, t, u);
    }
  }

  // ---- counting marks ----

  lemma {:induction false} CountLastIs(marks: Marks)
    ensures CountLast(marks) <= Count(marks) <= |marks|
    ensures forall j :: |marks| - CountLast(marks) <= j < |marks| ==> marks[j]
  {
    if marks != [] {
      var rest := marks[..|marks| - 1];
      CountLastIs(rest);
      assert forall j :: 0 <= j < |rest| ==> rest[j] == marks[j];
    }
  }

  lemma {:induction false} CountLastFrom(marks: Marks, n: nat)
    requires n <= |marks| && forall j :: |marks| - n <= j < |marks| ==> marks[j]
    ensures CountLast(marks) >= n
  {
    if n > 0 {
      var rest := marks[..|marks| - 1];
      assert forall j :: 0 <= j < |rest| ==> rest[j] == marks[j];
      CountLastFrom(rest, n - 1);
    }
  }

  lemma LastMarksGrow(marks: Marks, limit: nat)
    ensures CountLast(LastMarks(marks + AllMarked(limit))) >= Least(CountLast(marks) + limit, MAX_BOUNDARY_IDS)
  {
    CountLastIs(marks);
    var more := marks + AllMarked(limit);
    var kept := LastMarks(more);
    var n := Least(CountLast(marks) + limit, MAX_BOUNDARY_IDS);
    assert forall j :: 0 <= j < |kept| ==> kept[j] == more[|more| - |kept| + j];
    CountLastFrom(kept, n);
  }

  lemma {:induction false} AllMarkedCount(n: nat)
    ensures Count(AllMarked(n)) == CountLast(AllMarked(n)) == n
  {
    if n > 0 {
      assert AllMarked(n)[..n - 1] == AllMarked(n - 1);
      AllMarkedCount(n - 1);
    }
  }

  /** Where every id shares the boundary, marks say no more than their number. */
  lemma {:induction false} MarksAreCount(catalog: seq<Item>, t: Instant, g: nat, limit: nat)
    requires Catalog(catalog) && limit >= 1 && g <= MAX_BOUNDARY_IDS
    ensures EndsByMarks(catalog, t, AllMarked(g), limit) <==> EndsByCount(catalog, t, g, limit)
    decreases |Later(catalog, t)|, MAX_BOUNDARY_IDS - g
  {
    AllMarkedCount(g);
    if |From(catalog, t)| > g + limit {
      var u := LastOf(catalog, t, g, limit);
      LastIsLater(catalog, t, g + limit - 1);
      if u != t {
        MarksAreCount(catalog, u, Arrived(catalog, t, g, limit), limit);
      } else if g < MAX_BOUNDARY_IDS {
        var h := Least(g + limit, MAX_BOUNDARY_IDS);
        assert LastMarks(AllMarked(g) + AllMarked(limit)) == AllMarked(h);
        MarksAreCount(catalog, t, h, limit);
      }
    }
  }

  // ---- what a cursor's marks are after a page ----

  ghost function MarksOf(catalog: seq<Item>, s: State): Marks {
    Marked(Distinct(s.ids), Sharing(catalog, s.t))
  }

  lemma MarkedJoin(a: seq<Id>, b: seq<Id>, live: set<Id>)
    requires forall id :: id in b ==> id in live
    ensures Marked(a + b, live) == Marked(a, live) + AllMarked(|b|)
  {
    forall i | 0 <= i < |b| ensures b[i] in live {
      var id := b[i];
      assert id in b;
    }
    assert forall i :: |a| <= i < |a + b| ==> (a + b)[i] == b[i - |a|];
    assert Marked(a + b, live) == Marked(a, live) + AllMarked(|b|);
  }

  lemma MarkedLast(ids: seq<Id>, live: set<Id>)
    ensures Marked(LastIds(ids), live) == LastMarks(Marked(ids, live))
  {
  }

  lemma {:induction false} MarkedCount(ids: seq<Id>, live: set<Id>)
    requires NoDup(ids)
    ensures Count(Marked(ids, live)) == |ToSet(ids) * live|
  {
    if ids != [] {
      var n := |ids| - 1;
      MarkedCount(ids[..n], live);
      assert Marked(ids, live)[..n] == Marked(ids[..n], live);
      OneMoreShared(ids, live);
    }
  }

  lemma OneMoreShared(ids: seq<Id>, live: set<Id>)
    requires NoDup(ids) && ids != []
    ensures |ToSet(ids) * live| == |ToSet(ids[..|ids| - 1]) * live| + if ids[|ids| - 1] in live then 1 else 0
  {
    var rest, x := ids[..|ids| - 1], ids[|ids| - 1];
    assert x !in rest;
    assert ids == rest + [x];
    ToSetMore(rest, x);
    if x in live {
      assert ToSet(ids) * live == ToSet(rest) * live + {x};
    } else {
      assert ToSet(ids) * live == ToSet(rest) * live;
    }
  }

  /** While the boundary stands, the page's marks come behind those there were. */
  lemma MarksStay(catalog: seq<Item>, s: State, fetched: seq<Item>, p: Instant, m: nat)
    requires Catalog(catalog) && Lists(catalog, s.t, fetched) && IsPage(fetched, Some(s.t), s.ids, p, m)
    requires After(fetched, Some(s.t), s.ids, p, m).t == s.t
    ensures MarksOf(catalog, After(fetched, Some(s.t), s.ids, p, m)) == LastMarks(MarksOf(catalog, s) + AllMarked(m))
  {
    var page := PageOf(fetched, Some(s.t), s.ids, p, m);
    var r := Remembered(fetched, Some(s.t), s.ids, p, m);
    var last, live := NewestIds(page, s.t), Sharing(catalog, s.t);
    PageShape(fetched, Some(s.t), s.ids, p, m);
    NewestCount(page, s.t);
    assert r == Distinct(s.ids) + last;
    forall id | id in last ensures id in live {
      NewestIsShared(catalog, s, fetched, p, m, id);
    }
    MarkedJoin(Distinct(s.ids), last, live);
    MarkedLast(r, live);
    RememberedNoDup(fetched, Some(s.t), s.ids, p, m);
    LastNoDup(r);
    DistinctIsItself(LastIds(r));
  }

  /** Once it has moved, every id shares the new one, and they are as many as were delivered there and have no stamp. */
  lemma MarksMove(catalog: seq<Item>, s: State, fetched: seq<Item>, p: Instant, m: nat)
    requires Catalog(catalog) && Lists(catalog, s.t, fetched) && IsPage(fetched, Some(s.t), s.ids, p, m)
    requires After(fetched, Some(s.t), s.ids, p, m).t != s.t
    ensures m <= |Backlog(catalog, s)|
    ensures
      var t := After(fetched, Some(s.t), s.ids, p, m).t;
      var held := |WithoutStamp(catalog)| + |IdsAt(Backlog(catalog, s)[..m], t)|;
      MarksOf(catalog, After(fetched, Some(s.t), s.ids, p, m)) == AllMarked(Least(held, MAX_BOUNDARY_IDS))
  {
    var page := PageOf(fetched, Some(s.t), s.ids, p, m);
    var r := Remembered(fetched, Some(s.t), s.ids, p, m);
    var t := After(fetched, Some(s.t), s.ids, p, m).t;
    hide Chronological, PinnedSeen, Carried, Backlog, Sharing, IdsAt, WithoutStamp, LastIds, Distinct, Marked;
    NextAt(catalog, s, fetched, p, m);
    BacklogIsListing(catalog, s, fetched, p);
    HeldFurther(catalog, s, fetched, p, m);
    forall id | id in r ensures id in Sharing(catalog, t) {
      RememberedFrom(catalog, s, fetched, p, m, id);
    }
    RememberedNoDup(fetched, Some(s.t), s.ids, p, m);
    RepeatsShrink(r);
    StampedApart(catalog, s, m);
    LastAllMarked(r, Sharing(catalog, t));
  }

  lemma LastAllMarked(r: seq<Id>, live: set<Id>)
    requires NoDup(r) && forall id :: id in r ==> id in live
    ensures Marked(Distinct(LastIds(r)), live) == AllMarked(Least(|r|, MAX_BOUNDARY_IDS))
  {
    LastNoDup(r);
    DistinctIsItself(LastIds(r));
    MarkedJoin([], LastIds(r), live);
    assert [] + LastIds(r) == LastIds(r);
    assert Marked([], live) + AllMarked(|LastIds(r)|) == AllMarked(|LastIds(r)|);
  }

  /** What a page delivered at a new boundary is stamped. */
  lemma StampedApart(catalog: seq<Item>, s: State, m: nat)
    requires Catalog(catalog) && 1 <= m <= |Backlog(catalog, s)|
    ensures
      var t := Backlog(catalog, s)[m - 1].at;
      t != s.t ==> WithoutStamp(catalog) !! IdsAt(Backlog(catalog, s)[..m], t)
  {
    var all := Backlog(catalog, s);
    ChronologicalIsFresh(catalog, Some(s.t), s.ids, s.t);
    forall k | k in all[..m] && k.at != s.t ensures k.id !in WithoutStamp(catalog) {
      assert k in all;
      var j :| 0 <= j < |catalog| && k == KeyOf(catalog[j], Some(s.t), s.t);
      assert forall c :: c in catalog && c.id == k.id ==> c == catalog[j];
    }
  }

  // ---- where the items of a backlog stand ----

  /** An ordered list that begins at an instant: how many stand there, and that they come first. */
  lemma {:induction false} BeginsWith(all: seq<Keyed>, t: Instant)
    requires Ordered(all) && DistinctKeys(all) && forall k :: k in all ==> k.at >= t
    ensures
      var n := |IdsAt(all, t)|;
      n <= |all| && forall i :: 0 <= i < |all| ==> (all[i].at == t <==> i < n)
  {
    var n := 0;
    while n < |all| && all[n].at == t
      invariant n <= |all| && forall i :: 0 <= i < n ==> all[i].at == t
    {
      n := n + 1;
    }
    forall i | n <= i < |all| ensures all[i].at != t {
      assert all[n] in all && (n < i ==> Le(all[n], all[i]));
    }
    IdsCount(all[..n]);
    AtIsFirst(all, t, n);
  }

  lemma AtIsFirst(all: seq<Keyed>, t: Instant, n: nat)
    requires n <= |all| && forall i :: 0 <= i < |all| ==> (all[i].at == t <==> i < n)
    ensures IdsAt(all, t) == Ids(all[..n])
  {
    forall id ensures id in IdsAt(all, t) <==> id in Ids(all[..n]) {
      if id in IdsAt(all, t) {
        var k :| k in all && k.at == t && k.id == id;
        var i :| 0 <= i < |all| && all[i] == k;
        assert all[..n][i] == k;
      }
      if id in Ids(all[..n]) {
        var k :| k in all[..n] && k.id == id;
        var i :| 0 <= i < n && all[..n][i] == k;
        assert all[i] in all;
      }
    }
  }

  ghost function Known(catalog: seq<Item>, s: State): set<Id> {
    ToSet(s.ids) * Sharing(catalog, s.t)
  }

  /** `all` stands `g` places behind in `whole`: at the same instants, and past `t` with the same entries. */
  ghost predicate Shift(all: seq<Keyed>, whole: seq<Keyed>, t: Instant, g: nat) {
    && |whole| == |all| + g && g <= |IdsAt(whole, t)|
    && (forall i :: 0 <= i < |all| ==> all[i].at == whole[g + i].at)
    && (forall i :: 0 <= i < |all| && all[i].at != t ==> all[i] == whole[g + i])
  }

  /** The backlog is what the catalog holds from the boundary on, without as many at the boundary as are known there. */
  lemma BacklogShift(catalog: seq<Item>, s: State)
    requires Catalog(catalog)
    ensures Shift(Backlog(catalog, s), From(catalog, s.t), s.t, |Known(catalog, s)|)
  {
    hide Backlog, Known, Shift;
    BacklogShape(catalog, s);
    BacklogShape(catalog, State(s.t, []));
    AtBoundary(catalog, s);
    PastBoundary(catalog, s);
    hide From;
    ShiftedBy(Backlog(catalog, s), From(catalog, s.t), s.t, |Known(catalog, s)|);
  }

  lemma ShiftedBy(all: seq<Keyed>, whole: seq<Keyed>, t: Instant, g: nat)
    requires Ordered(all) && DistinctKeys(all) && forall k :: k in all ==> k.at >= t
    requires Ordered(whole) && DistinctKeys(whole) && forall k :: k in whole ==> k.at >= t
    requires |IdsAt(whole, t)| == |IdsAt(all, t)| + g
    requires forall k: Keyed :: k.at != t ==> (k in all <==> k in whole)
    ensures Shift(all, whole, t, g)
  {
    hide IdsAt, Ordered, DistinctKeys;
    BeginsWith(all, t);
    BeginsWith(whole, t);
    Shifted(all, whole, t, |IdsAt(all, t)|, |IdsAt(whole, t)|);
  }

  /** Two lists with the same rest behind what stands at the boundary differ by a shift. */
  lemma Shifted(all: seq<Keyed>, whole: seq<Keyed>, t: Instant, a: nat, w: nat)
    requires Ordered(all) && DistinctKeys(all) && Ordered(whole) && DistinctKeys(whole) && a <= w
    requires a <= |all| && forall i :: 0 <= i < |all| ==> (all[i].at == t <==> i < a)
    requires w <= |whole| && forall i :: 0 <= i < |whole| ==> (whole[i].at == t <==> i < w)
    requires forall k: Keyed :: k.at != t ==> (k in all <==> k in whole)
    ensures |whole| == |all| + (w - a)
    ensures forall i :: 0 <= i < |all| ==> all[i].at == whole[w - a + i].at
    ensures forall i :: 0 <= i < |all| && all[i].at != t ==> all[i] == whole[w - a + i]
  {
    SameRest(all, whole, t, a, w);
    assert |all[a..]| == |whole[w..]|;
    forall i | 0 <= i < |all| && all[i].at != t ensures all[i] == whole[w - a + i] {
      assert all[a..][i - a] == whole[w..][i - a];
    }
  }

  lemma PastBoundary(catalog: seq<Item>, s: State)
    requires Catalog(catalog)
    ensures forall k: Keyed :: k.at != s.t ==> (k in Backlog(catalog, s) <==> k in From(catalog, s.t))
  {
    FromHasBacklog(catalog, s);
  }

  lemma AtBoundary(catalog: seq<Item>, s: State)
    requires Catalog(catalog)
    ensures |IdsAt(From(catalog, s.t), s.t)| == |IdsAt(Backlog(catalog, s), s.t)| + |Known(catalog, s)|
  {
    var all, whole := Backlog(catalog, s), From(catalog, s.t);
    SharedAreThere(catalog, s.t);
    FromHasBacklog(catalog, s);
    BacklogShape(catalog, State(s.t, []));
    forall id ensures id in IdsAt(whole, s.t) <==> id in IdsAt(all, s.t) || id in Known(catalog, s) {
      if id in IdsAt(whole, s.t) && id !in s.ids {
        var k :| k in whole && k.at == s.t && k.id == id;
        assert k in all;
      }
    }
    assert IdsAt(whole, s.t) == IdsAt(all, s.t) + Known(catalog, s);
    assert IdsAt(all, s.t) !! Known(catalog, s);
  }

  /** Past the boundary both lists are the same. */
  lemma SameRest(all: seq<Keyed>, whole: seq<Keyed>, t: Instant, a: nat, w: nat)
    requires Ordered(all) && DistinctKeys(all) && Ordered(whole) && DistinctKeys(whole)
    requires a <= |all| && forall i :: 0 <= i < |all| ==> (all[i].at == t <==> i < a)
    requires w <= |whole| && forall i :: 0 <= i < |whole| ==> (whole[i].at == t <==> i < w)
    requires forall k: Keyed :: k.at != t ==> (k in all <==> k in whole)
    ensures all[a..] == whole[w..]
  {
    RestIs(all, t, a);
    RestIs(whole, t, w);
    OneOrder(all[a..], whole[w..]);
  }

  lemma RestIs(all: seq<Keyed>, t: Instant, a: nat)
    requires Ordered(all) && DistinctKeys(all)
    requires a <= |all| && forall i :: 0 <= i < |all| ==> (all[i].at == t <==> i < a)
    ensures Ordered(all[a..]) && DistinctKeys(all[a..])
    ensures forall k :: k in all[a..] <==> k in all && k.at != t
  {
    forall k | k in all && k.at != t ensures k in all[a..] {
      var i :| 0 <= i < |all| && all[i] == k;
      assert all[a..][i - a] == k;
    }
  }

  // ---- the polls and the count ----

  lemma KnownCount(catalog: seq<Item>, s: State)
    ensures Count(MarksOf(catalog, s)) == |Known(catalog, s)|
  {
    MarkedCount(Distinct(s.ids), Sharing(catalog, s.t));
    assert ToSet(Distinct(s.ids)) == ToSet(s.ids);
  }

  /** What arrives at a new boundary, told by the whole list. */
  lemma ArrivedIs(catalog: seq<Item>, s: State, m: nat)
    requires Catalog(catalog) && 1 <= m <= |Backlog(catalog, s)| && Backlog(catalog, s)[m - 1].at != s.t
    ensures
      var u, g := Backlog(catalog, s)[m - 1].at, |Known(catalog, s)|;
      && g + m <= |From(catalog, s.t)|
      && IdsAt(Backlog(catalog, s)[..m], u) == IdsAt(From(catalog, s.t)[..g + m], u)
  {
    hide Backlog, IdsAt, Known;
    var all, whole, g := Backlog(catalog, s), From(catalog, s.t), |Known(catalog, s)|;
    BacklogShift(catalog, s);
    BacklogShape(catalog, State(s.t, []));
    BeginsWith(whole, s.t);
    FrontIds(all, whole, s.t, g, m, |IdsAt(whole, s.t)|);
  }

  lemma FrontIds(all: seq<Keyed>, whole: seq<Keyed>, t: Instant, g: nat, m: nat, w: nat)
    requires 1 <= m <= |all| && |whole| == |all| + g && all[m - 1].at != t && g <= w <= |whole|
    requires forall i :: 0 <= i < |whole| ==> (whole[i].at == t <==> i < w)
    requires forall i :: 0 <= i < |all| ==> all[i].at == whole[g + i].at
    requires forall i :: 0 <= i < |all| && all[i].at != t ==> all[i] == whole[g + i]
    ensures IdsAt(all[..m], all[m - 1].at) == IdsAt(whole[..g + m], all[m - 1].at)
  {
    var u := all[m - 1].at;
    forall id ensures id in IdsAt(all[..m], u) <==> id in IdsAt(whole[..g + m], u) {
      if id in IdsAt(all[..m], u) {
        var k :| k in all[..m] && k.at == u && k.id == id;
        var i :| 0 <= i < m && all[..m][i] == k;
        assert whole[..g + m][g + i] == k;
      }
      if id in IdsAt(whole[..g + m], u) {
        var k :| k in whole[..g + m] && k.at == u && k.id == id;
        var i :| 0 <= i < g + m && whole[..g + m][i] == k;
        assert all[..m][i - g] == all[i - g];
        assert all[i - g] == whole[g + (i - g)];
      }
    }
  }

  /** One poll of a fixed source, told by marks. */
  lemma MarkedPoll(
      catalog: seq<Item>, s: State, source: (nat, Option<Cursor>) -> seq<Item>, clock: nat -> Instant,
      since: Option<Instant>, limit: nat, page: nat) returns (next: State)
    requires Catalog(catalog) && ServesCatalog(catalog, source) && limit >= 1
    ensures
      var poll := TriggerOf(Timestamp, source, clock, since, Some(limit));
      var marks := MarksOf(catalog, s);
      var g := Count(marks);
      if |From(catalog, s.t)| <= g + limit then Ends(poll, CursorOf(s), page)
      else
        && poll(page, CursorOf(s)).Ok? && poll(page, CursorOf(s)).value.hasMore
        && poll(page, CursorOf(s)).value.nextCursor == CursorOf(next)
        && next.t == LastOf(catalog, s.t, g, limit)
        && MarksOf(catalog, next) ==
           (if next.t == s.t then LastMarks(marks + AllMarked(limit)) else AllMarked(Arrived(catalog, s.t, g, limit)))
  {
    hide Backlog, From, IdsAt, Known, MarksOf, Lists, IsPage, After, RunPoll;
    var fetched, p := source(page, CursorOf(s)), clock(page);
    assert Lists(catalog, s.t, fetched);
    TimestampAnswer(catalog, s, fetched, since, Some(limit), p);
    KnownCount(catalog, s);
    BacklogShift(catalog, s);
    next := s;
    if limit < |Backlog(catalog, s)| {
      next := After(fetched, Some(s.t), s.ids, p, limit);
      NextAt(catalog, s, fetched, p, limit);
      if next.t == s.t {
        MarksStay(catalog, s, fetched, p, limit);
      } else {
        MarksMove(catalog, s, fetched, p, limit);
        ArrivedIs(catalog, s, limit);
      }
    }
  }

  lemma {:induction false} EndsIfMarked(
      catalog: seq<Item>, s: State, source: (nat, Option<Cursor>) -> seq<Item>, clock: nat -> Instant,
      since: Option<Instant>, limit: nat, page: nat) returns (k: nat)
    requires Catalog(catalog) && ServesCatalog(catalog, source) && limit >= 1
    requires EndsByMarks(catalog, s.t, MarksOf(catalog, s), limit)
    ensures EndsAfter(TriggerOf(Timestamp, source, clock, since, Some(limit)), CursorOf(s), page, k)
    decreases |Later(catalog, s.t)|, MAX_BOUNDARY_IDS - Least(CountLast(MarksOf(catalog, s)), MAX_BOUNDARY_IDS)
  {
    hide From, RunPoll, MarksOf, ServesCatalog, Arrived, Later, Count, CountLast, LastMarks, AllMarked;
    var marks := MarksOf(catalog, s);
    var next := MarkedPoll(catalog, s, source, clock, since, limit, page);
    if |From(catalog, s.t)| <= Count(marks) + limit {
      k := 0;
    } else {
      LastIsLater(catalog, s.t, Count(marks) + limit - 1);
      LastMarksGrow(marks, limit);
      var j := EndsIfMarked(catalog, next, source, clock, since, limit, page + 1);
      k := j + 1;
    }
  }

  lemma {:induction false} AsksUnlessMarked(
      catalog: seq<Item>, s: State, source: (nat, Option<Cursor>) -> seq<Item>, clock: nat -> Instant,
      since: Option<Instant>, limit: nat, page: nat, k: nat)
    requires Catalog(catalog) && ServesCatalog(catalog, source) && limit >= 1
    requires !EndsByMarks(catalog, s.t, MarksOf(catalog, s), limit)
    ensures AsksOn(TriggerOf(Timestamp, source, clock, since, Some(limit)), CursorOf(s), page, k)
    decreases k
  {
    hide From, RunPoll, MarksOf, ServesCatalog, Arrived, Later, Count, CountLast, LastMarks, AllMarked;
    if k > 0 {
      var marks := MarksOf(catalog, s);
      var next := MarkedPoll(catalog, s, source, clock, since, limit, page);
      if next.t == s.t && CountLast(marks) >= MAX_BOUNDARY_IDS {
        StuckForGood(catalog, s.t, marks, limit);
      }
      AsksUnlessMarked(catalog, next, source, clock, since, limit, page + 1, k - 1);
    }
  }

  /** A list that ends with 500 marks and stays ends with 500 marks again. */
  lemma StuckForGood(catalog: seq<Item>, t: Instant, marks: Marks, limit: nat)
    requires Catalog(catalog) && limit >= 1 && CountLast(marks) >= MAX_BOUNDARY_IDS
    requires |From(catalog, t)| > Count(marks) + limit && LastOf(catalog, t, Count(marks), limit) == t
    ensures !EndsByMarks(catalog, t, LastMarks(marks + AllMarked(limit)), limit)
  {
    hide Backlog, IdsAt, Later, Count, CountLast, Arrived;
    var next := LastMarks(marks + AllMarked(limit));
    LastMarksGrow(marks, limit);
    CountLastIs(marks);
    CountLastIs(next);
    BacklogShape(catalog, State(t, []));
    BeginsWith(From(catalog, t), t);
    hide From;
    assert Count(next) == MAX_BOUNDARY_IDS <= Count(marks);
    assert LastOf(catalog, t, Count(next), limit) == t;
  }

  /** Polling a fixed source comes to an end, and so delivers everything, if and only if the marks of its cursor say so:
    * a recursion on the catalog, the cursor and the limit.
    */
  lemma EndsIffMarked(
      catalog: seq<Item>, s: State, source: (nat, Option<Cursor>) -> seq<Item>, clock: nat -> Instant,
      since: Option<Instant>, limit: nat, page: nat)
    requires Catalog(catalog) && ServesCatalog(catalog, source) && limit >= 1
    ensures
      (exists k: nat :: EndsAfter(TriggerOf(Timestamp, source, clock, since, Some(limit)), CursorOf(s), page, k))
      <==> EndsByMarks(catalog, s.t, MarksOf(catalog, s), limit)
  {
    hide RunPoll, EndsByMarks, ServesCatalog;
    var poll := TriggerOf(Timestamp, source, clock, since, Some(limit));
    if EndsByMarks(catalog, s.t, MarksOf(catalog, s), limit) {
      var k := EndsIfMarked(catalog, s, source, clock, since, limit, page);
    } else {
      forall k: nat ensures !EndsAfter(poll, CursorOf(s), page, k) {
        AsksUnlessMarked(catalog, s, source, clock, since, limit, page, k + 1);
        AskedBefore(poll, CursorOf(s), page, k, k + 1);
        Joined(poll, CursorOf(s), page, k, 1);
      }
    }
  }

  /** For a cursor whose ids are distinct and all share its boundary it is enough how many they are. */
  lemma EndsIffCounted(
      catalog: seq<Item>, s: State, source: (nat, Option<Cursor>) -> seq<Item>, clock: nat -> Instant,
      since: Option<Instant>, limit: nat, page: nat)
    requires Catalog(catalog) && ServesCatalog(catalog, source) && limit >= 1
    requires NoDup(s.ids) && |s.ids| <= MAX_BOUNDARY_IDS && forall id :: id in s.ids ==> id in Sharing(catalog, s.t)
    ensures
      (exists k: nat :: EndsAfter(TriggerOf(Timestamp, source, clock, since, Some(limit)), CursorOf(s), page, k))
      <==> EndsByCount(catalog, s.t, |s.ids|, limit)
  {
    EndsIffMarked(catalog, s, source, clock, since, limit, page);
    LastAllMarked(s.ids, Sharing(catalog, s.t));
    MarksAreCount(catalog, s.t, |s.ids|, limit);
  }

  /** Where everything is stamped, it comes to no instant from the boundary on being crowded. */
  lemma StampedMarks(catalog: seq<Item>, s: State, limit: nat)
    requires Catalog(catalog) && Stamped(catalog) && limit >= 1 && |s.ids| <= MAX_BOUNDARY_IDS
    ensures EndsByMarks(catalog, s.t, MarksOf(catalog, s), limit)
      <==> forall t :: t >= s.t ==> !Crowds(catalog, t, limit)
  {
    hide EndsByMarks, Crowds, EndsAfter;
    var source: (nat, Option<Cursor>) -> seq<Item> := (page, cursor) => catalog;
    var clock: nat -> Instant := page => 0;
    assert ServesCatalog(catalog, source);
    EndsIffMarked(catalog, s, source, clock, None, limit, 0);
    StampedEndsIff(catalog, s, source, clock, None, limit, 0);
  }
}
