/** One poll where more items share an instant than the cursor can tell apart (packages/connector-sdk/src/dedupe.ts):
  * whether the boundary can move.
  */
module CrowdedInstant {
  import opened Wrappers
  import opened Counting
  import opened Dedupe
  import opened DedupePages
  import opened DedupeCap
  import opened Drain
  import opened TimestampDrain

  /** All the catalog holds at an instant and after it, those without a stamp counted with the instant. */
  ghost function From(catalog: seq<Item>, t: Instant): seq<Keyed>
    requires Readable(catalog)
  {
    Backlog(catalog, State(t, []))
  }

  /** A page more than the cap shares the instant, and something comes after them. */
  ghost predicate Crowds(catalog: seq<Item>, t: Instant, limit: nat)
    requires Readable(catalog) && limit >= 1
  {
    var n := MAX_BOUNDARY_IDS + limit;
    |From(catalog, t)| > n && From(catalog, t)[n - 1].at == t
  }

  lemma FromHasBacklog(catalog: seq<Item>, s: State)
    requires Catalog(catalog)
    ensures forall k :: k in Backlog(catalog, s) <==> k in From(catalog, s.t) && (k.at == s.t ==> k.id !in s.ids)
  {
    ChronologicalIsFresh(catalog, Some(s.t), s.ids, s.t);
    ChronologicalIsFresh(catalog, Some(s.t), [], s.t);
  }

  ghost function Ids(s: seq<Keyed>): set<Id> {
    set k | k in s :: k.id
  }

  lemma {:induction false} IdsCount(s: seq<Keyed>)
    requires DistinctKeys(s)
    ensures |Ids(s)| == |s|
  {
    if s != [] {
      var n := |s| - 1;
      IdsCount(s[..n]);
      LastApart(s);
      assert s == s[..n] + [s[n]];
      assert Ids(s) == Ids(s[..n]) + {s[n].id};
    }
  }

  /** An ordered list up to one of its entries holds every entry below that one. */
  lemma BelowIsBefore(all: seq<Keyed>, h: nat, k: Keyed)
    requires Ordered(all) && DistinctKeys(all) && h < |all| && k in all && Le(k, all[h]) && k != all[h]
    ensures k in all[..h]
  {
    var i :| 0 <= i < |all| && all[i] == k;
    assert i < h;
    assert all[..h][i] == k;
  }

  // ---- a crowded instant is never left ----

  /** With a cursor of at most 500 ids a page takes only from the first 500 and a page more. */
  lemma PageStaysBelow(catalog: seq<Item>, s: State, limit: nat, h: nat)
    requires Catalog(catalog) && limit >= 1 && Crowds(catalog, s.t, limit) && |s.ids| <= MAX_BOUNDARY_IDS
    requires h < limit && h < |Backlog(catalog, s)|
    ensures Backlog(catalog, s)[h] in From(catalog, s.t)[..MAX_BOUNDARY_IDS + limit]
  {
    var all, whole := Backlog(catalog, s), From(catalog, s.t);
    var first := whole[..MAX_BOUNDARY_IDS + limit];
    BacklogShape(catalog, s);
    BacklogShape(catalog, State(s.t, []));
    FromHasBacklog(catalog, s);
    if all[h] !in first {
      assert all[h] in whole;
      forall k | k in first ensures k.id in s.ids || k in all[..h] {
        FirstIsAt(whole, s.t, MAX_BOUNDARY_IDS + limit, k, all[h]);
        if k.id !in s.ids {
          BelowIsBefore(all, h, k);
        }
      }
      CountFirst(first, s.ids, all[..h]);
    }
  }

  /** What comes first in a list that begins at an instant is at the instant, and below whatever does not. */
  lemma FirstIsAt(whole: seq<Keyed>, t: Instant, n: nat, k: Keyed, x: Keyed)
    requires Ordered(whole) && DistinctKeys(whole) && (forall q :: q in whole ==> q.at >= t)
    requires 1 <= n <= |whole| && whole[n - 1].at == t && k in whole[..n] && x in whole && x !in whole[..n]
    ensures k in whole && k.at == t && Le(k, x) && k != x
  {
    var i :| 0 <= i < n && whole[..n][i] == k;
    assert whole == whole[..n] + whole[n..];
    var j :| 0 <= j < |whole[n..]| && whole[n..][j] == x;
    assert i < n - 1 ==> Le(whole[i], whole[n - 1]);
    assert Le(whole[i], whole[n + j]);
    assert whole[i] in whole;
  }

  lemma CountFirst(first: seq<Keyed>, ids: seq<Id>, part: seq<Keyed>)
    requires DistinctKeys(first) && DistinctKeys(part)
    requires forall k :: k in first ==> k.id in ids || k in part
    ensures |first| <= |ids| + |part|
  {
    IdsCount(first);
    IdsCount(part);
    RepeatsShrink(ids);
    SubsetSize(Ids(first), ToSet(ids) + Ids(part));
  }

  /** More than a page is new there, whatever 500 ids the cursor remembers. */
  lemma MoreThanAPage(catalog: seq<Item>, s: State, limit: nat)
    requires Catalog(catalog) && limit >= 1 && Crowds(catalog, s.t, limit) && |s.ids| <= MAX_BOUNDARY_IDS
    ensures |Backlog(catalog, s)| > limit
  {
    var all, whole := Backlog(catalog, s), From(catalog, s.t);
    BacklogShape(catalog, s);
    BacklogShape(catalog, State(s.t, []));
    FromHasBacklog(catalog, s);
    CountFirst(whole, s.ids, all);
  }

  /** One poll at a crowded instant: it asks to be followed, delivers from the first 500 and a page more, and leaves the
    * boundary where it is.
    */
  lemma CrowdedPage(catalog: seq<Item>, s: State, fetched: seq<Item>, since: Option<Instant>, limit: nat, p: Instant)
    requires Catalog(catalog) && Lists(catalog, s.t, fetched) && limit >= 1
    requires Crowds(catalog, s.t, limit) && |s.ids| <= MAX_BOUNDARY_IDS
    ensures Readable(fetched) && IsPage(fetched, Some(s.t), s.ids, p, limit)
    ensures
      var next := After(fetched, Some(s.t), s.ids, p, limit);
      var r := RunPoll(Timestamp, fetched, CursorOf(s), since, Some(limit), p);
      && r.Ok? && r.value.hasMore && r.value.nextCursor == CursorOf(next) && next != s
      && (forall x :: x in r.value.items ==> x in ItemsOf(From(catalog, s.t)[..MAX_BOUNDARY_IDS + limit]))
      && next.t == s.t && |next.ids| <= MAX_BOUNDARY_IDS
  {
    var all, first := Backlog(catalog, s), From(catalog, s.t)[..MAX_BOUNDARY_IDS + limit];
    MoreThanAPage(catalog, s, limit);
    TimestampAnswer(catalog, s, fetched, since, Some(limit), p);
    NextAt(catalog, s, fetched, p, limit);
    CrowdStays(catalog, s, limit);
    forall x | x in ItemsOf(all)[..limit] ensures x in ItemsOf(first) {
      var h :| 0 <= h < limit && ItemsOf(all)[..limit][h] == x;
      PageStaysBelow(catalog, s, limit, h);
      var i :| 0 <= i < |first| && first[i] == all[h];
      assert ItemsOf(first)[i] == x;
    }
  }

  lemma CrowdStays(catalog: seq<Item>, s: State, limit: nat)
    requires Catalog(catalog) && limit >= 1 && Crowds(catalog, s.t, limit) && |s.ids| <= MAX_BOUNDARY_IDS
    ensures |Backlog(catalog, s)| > limit && Backlog(catalog, s)[limit - 1].at == s.t
  {
    var whole := From(catalog, s.t);
    var n := MAX_BOUNDARY_IDS + limit;
    MoreThanAPage(catalog, s, limit);
    PageStaysBelow(catalog, s, limit, limit - 1);
    BacklogShape(catalog, State(s.t, []));
    var i :| 0 <= i < n && whole[..n][i] == Backlog(catalog, s)[limit - 1];
    assert i < n - 1 ==> Le(whole[i], whole[n - 1]);
    assert whole[i] in whole;
  }

  // ---- any other instant is left ----

  /** How many ids the list ends with that still matter. */
  function LastLive(ids: seq<Id>, live: set<Id>): nat {
    if ids == [] || ids[|ids| - 1] !in live then 0 else 1 + LastLive(ids[..|ids| - 1], live)
  }

  lemma {:induction false} LastLiveIs(ids: seq<Id>, live: set<Id>)
    ensures LastLive(ids, live) <= |ids|
    ensures forall j :: |ids| - LastLive(ids, live) <= j < |ids| ==> ids[j] in live
  {
    if ids != [] && ids[|ids| - 1] in live {
      var rest := ids[..|ids| - 1];
      LastLiveIs(rest, live);
      assert forall j :: 0 <= j < |rest| ==> rest[j] == ids[j];
    }
  }

  lemma {:induction false} LastLiveFrom(ids: seq<Id>, live: set<Id>, n: nat)
    requires n <= |ids| && forall j :: |ids| - n <= j < |ids| ==> ids[j] in live
    ensures LastLive(ids, live) >= n
  {
    if n > 0 {
      var rest := ids[..|ids| - 1];
      assert forall j :: 0 <= j < |rest| ==> rest[j] == ids[j];
      LastLiveFrom(rest, live, n - 1);
    }
  }

  ghost function Settled(catalog: seq<Item>, s: State): nat {
    LastLive(Distinct(s.ids), Sharing(catalog, s.t))
  }

  /** A page that leaves the boundary where it is puts as many ids of the instant at the end of the list as it holds. */
  lemma StayAddsAPage(catalog: seq<Item>, s: State, fetched: seq<Item>, p: Instant, m: nat)
    requires Catalog(catalog) && Lists(catalog, s.t, fetched) && IsPage(fetched, Some(s.t), s.ids, p, m)
    requires After(fetched, Some(s.t), s.ids, p, m).t == s.t
    ensures
      var n := Settled(catalog, s) + m;
      Settled(catalog, After(fetched, Some(s.t), s.ids, p, m)) >= if n < MAX_BOUNDARY_IDS then n else MAX_BOUNDARY_IDS
  {
    var b := Some(s.t);
    var page := PageOf(fetched, b, s.ids, p, m);
    var r := Remembered(fetched, b, s.ids, p, m);
    var last := NewestIds(page, s.t);
    var live := Sharing(catalog, s.t);
    PageShape(fetched, b, s.ids, p, m);
    RememberedNoDup(fetched, b, s.ids, p, m);
    NewestCount(page, s.t);
    assert r == Distinct(s.ids) + last;
    forall id | id in last ensures id in live {
      NewestIsShared(catalog, s, fetched, p, m, id);
    }
    LastLiveIs(Distinct(s.ids), live);
    LastNoDup(r);
    DistinctIsItself(LastIds(r));
    EndsLive(Distinct(s.ids), last, live);
  }

  lemma NewestIsShared(catalog: seq<Item>, s: State, fetched: seq<Item>, p: Instant, m: nat, id: Id)
    requires Catalog(catalog) && Lists(catalog, s.t, fetched) && IsPage(fetched, Some(s.t), s.ids, p, m)
    requires id in NewestIds(PageOf(fetched, Some(s.t), s.ids, p, m), s.t)
    ensures id in Sharing(catalog, s.t)
  {
    var page := PageOf(fetched, Some(s.t), s.ids, p, m);
    PageShape(fetched, Some(s.t), s.ids, p, m);
    NewestAreThere(page, s.t);
    var k :| k in page && k.id == id && k.at == s.t;
    var i :| 0 <= i < |fetched| && k == KeyOf(fetched[i], Some(s.t), p);
    assert fetched[i] in catalog;
  }

  lemma NewestCount(page: seq<Keyed>, t: Instant)
    requires Upto(page, t) && forall k :: k in page ==> k.at >= t
    ensures |NewestIds(page, t)| == |page|
  {
    NewestNoDup(page, t);
    NewestSet(page, t);
    RepeatsShrink(NewestIds(page, t));
    IdsCount(page);
    assert IdsAt(page, t) == Ids(page);
  }

  lemma EndsLive(a: seq<Id>, b: seq<Id>, live: set<Id>)
    requires forall id :: id in b ==> id in live
    ensures
      var n := LastLive(a, live) + |b|;
      LastLive(LastIds(a + b), live) >= if n < MAX_BOUNDARY_IDS then n else MAX_BOUNDARY_IDS
  {
    LastLiveIs(a, live);
    var n := LastLive(a, live) + |b|;
    var kept := LastIds(a + b);
    var from := |a + b| - |kept|;
    var g := if n < MAX_BOUNDARY_IDS then n else MAX_BOUNDARY_IDS;
    forall j | |kept| - g <= j < |kept| ensures kept[j] in live {
      assert kept[j] == (a + b)[from + j];
      assert from + j >= |a| ==> b[from + j - |a|] in b;
    }
    LastLiveFrom(kept, live, g);
  }

  /** A boundary that 500 ids of its own cannot move is crowded. */
  lemma FullStayIsCrowded(catalog: seq<Item>, s: State, limit: nat)
    requires Catalog(catalog) && limit >= 1 && Settled(catalog, s) >= MAX_BOUNDARY_IDS
    requires |Backlog(catalog, s)| > limit && Backlog(catalog, s)[limit - 1].at == s.t
    ensures Crowds(catalog, s.t, limit)
  {
    var all, whole := Backlog(catalog, s), From(catalog, s.t);
    var known := SettledIds(catalog, s);
    SettledApart(catalog, s);
    TogetherMore(whole, all, known, s.t);
    TogetherThere(whole, all, known, s.t, limit);
  }

  lemma SettledApart(catalog: seq<Item>, s: State)
    requires Catalog(catalog) && Settled(catalog, s) >= MAX_BOUNDARY_IDS
    ensures Together(From(catalog, s.t), Backlog(catalog, s), SettledIds(catalog, s), s.t)
  {
    BacklogShape(catalog, s);
    BacklogShape(catalog, State(s.t, []));
    FromHasBacklog(catalog, s);
    var whole, known := From(catalog, s.t), SettledIds(catalog, s);
    forall k | k in Backlog(catalog, s) ensures k.id !in known {
      if k.id in known {
        var q :| q in whole && q.at == s.t && q.id == k.id;
        SameEntry(whole, k, q);
      }
    }
  }

  lemma SameEntry(whole: seq<Keyed>, k: Keyed, q: Keyed)
    requires DistinctKeys(whole) && k in whole && q in whole && k.id == q.id
    ensures k == q
  {
    var i :| 0 <= i < |whole| && whole[i] == k;
    var j :| 0 <= j < |whole| && whole[j] == q;
  }

  /** Ids known at the instant and a backlog without them, both within the whole. */
  ghost predicate Together(whole: seq<Keyed>, all: seq<Keyed>, known: set<Id>, t: Instant) {
    && Ordered(whole) && DistinctKeys(whole) && (forall k :: k in whole ==> k.at >= t)
    && Ordered(all) && DistinctKeys(all) && (forall k :: k in all ==> k in whole)
    && known <= IdsAt(whole, t)
    && (forall k :: k in all ==> k.id !in known)
  }

  lemma TogetherMore(whole: seq<Keyed>, all: seq<Keyed>, known: set<Id>, t: Instant)
    requires Together(whole, all, known, t)
    ensures |whole| >= |known| + |all|
  {
    IdsCount(all);
    IdsCount(whole);
    assert known !! Ids(all);
    assert IdsAt(whole, t) <= Ids(whole);
    assert Ids(all) <= Ids(whole);
    SubsetSize(known + Ids(all), Ids(whole));
  }

  lemma TogetherThere(whole: seq<Keyed>, all: seq<Keyed>, known: set<Id>, t: Instant, m: nat)
    requires Together(whole, all, known, t) && 1 <= m <= |all| && all[m - 1].at == t
    requires |known| + m <= |whole|
    ensures whole[|known| + m - 1].at == t
  {
    var n := |known| + m - 1;
    var page := all[..m];
    PageThere(all, t, m);
    IdsCount(page);
    if whole[n].at != t {
      AllBefore(whole, t, n);
      IdsCount(whole[..n]);
      assert known !! Ids(page);
      forall id | id in Ids(page) ensures id in IdsAt(whole, t) {
        var k :| k in page && k.id == id;
        assert k in whole;
      }
      SubsetSize(known + Ids(page), Ids(whole[..n]));
    }
  }

  lemma PageThere(all: seq<Keyed>, t: Instant, m: nat)
    requires Ordered(all) && 1 <= m <= |all| && all[m - 1].at == t && forall k :: k in all ==> k.at >= t
    ensures forall k :: k in all[..m] ==> k in all && k.at == t
  {
    forall k | k in all[..m] ensures k in all && k.at == t {
      var i :| 0 <= i < m && all[..m][i] == k;
      assert all[i] in all;
      assert i < m - 1 ==> Le(all[i], all[m - 1]);
    }
  }

  lemma AllBefore(whole: seq<Keyed>, t: Instant, n: nat)
    requires Ordered(whole) && n < |whole| && whole[n].at != t && forall k :: k in whole ==> k.at >= t
    ensures IdsAt(whole, t) <= Ids(whole[..n])
  {
    assert whole[n] in whole;
    forall i | n <= i < |whole| ensures whole[i].at != t {
      assert n < i ==> Le(whole[n], whole[i]);
    }
    forall id | id in IdsAt(whole, t) ensures id in Ids(whole[..n]) {
      var k :| k in whole && k.at == t && k.id == id;
      var i :| 0 <= i < |whole| && whole[i] == k;
      assert whole[..n][i] == k;
    }
  }

  /** 500 ids of the instant that the cursor ends with. */
  ghost function SettledIds(catalog: seq<Item>, s: State): (r: set<Id>)
    requires Catalog(catalog) && Settled(catalog, s) >= MAX_BOUNDARY_IDS
    ensures |r| == MAX_BOUNDARY_IDS
    ensures r <= IdsAt(From(catalog, s.t), s.t) && forall id :: id in r ==> id in s.ids
  {
    var ids := Distinct(s.ids);
    LastLiveIs(ids, Sharing(catalog, s.t));
    var last := ids[|ids| - MAX_BOUNDARY_IDS..];
    assert forall j :: 0 <= j < |last| ==> last[j] == ids[|ids| - MAX_BOUNDARY_IDS + j];
    assert NoDup(last);
    RepeatsShrink(last);
    SharedIsThere(catalog, s.t);
    ToSet(last)
  }

  lemma SharedIsThere(catalog: seq<Item>, t: Instant)
    requires Catalog(catalog)
    ensures Sharing(catalog, t) <= IdsAt(From(catalog, t), t)
  {
    forall id | id in Sharing(catalog, t) ensures id in IdsAt(From(catalog, t), t) {
      var c :| c in catalog && (c.updatedAt.At? ==> c.updatedAt.instant == t) && c.id == id;
      var j :| 0 <= j < |catalog| && catalog[j] == c;
      NewInBacklog(catalog, c, State(t, []));
    }
  }

  /** In terms of the catalog: a page more than the cap shares the instant, and the catalog holds more from there on. */
  lemma CrowdsIffShared(catalog: seq<Item>, t: Instant, limit: nat)
    requires Catalog(catalog) && limit >= 1
    ensures Crowds(catalog, t, limit) <==>
      |Sharing(catalog, t)| >= MAX_BOUNDARY_IDS + limit && |From(catalog, t)| > MAX_BOUNDARY_IDS + limit
  {
    var whole, n := From(catalog, t), MAX_BOUNDARY_IDS + limit;
    BacklogShape(catalog, State(t, []));
    SharedAreThere(catalog, t);
    if |whole| > n {
      IdsCount(whole[..n]);
      IdsCount(whole[..n - 1]);
      if whole[n - 1].at == t {
        PageThere(whole, t, n);
        assert Ids(whole[..n]) <= IdsAt(whole, t);
        SubsetSize(Ids(whole[..n]), IdsAt(whole, t));
      } else {
        AllBefore(whole, t, n - 1);
        SubsetSize(IdsAt(whole, t), Ids(whole[..n - 1]));
      }
    }
  }

  lemma SharedAreThere(catalog: seq<Item>, t: Instant)
    requires Catalog(catalog)
    ensures Sharing(catalog, t) == IdsAt(From(catalog, t), t)
  {
    SharedIsThere(catalog, t);
    ChronologicalIsFresh(catalog, Some(t), [], t);
    forall id | id in IdsAt(From(catalog, t), t) ensures id in Sharing(catalog, t) {
      var k :| k in From(catalog, t) && k.at == t && k.id == id;
      var j :| 0 <= j < |catalog| && k == KeyOf(catalog[j], Some(t), t);
      assert catalog[j] in catalog;
    }
  }
}
