/** Draining a fixed source under the `timestamp` strategy (packages/connector-sdk/src/dedupe.ts, runtime.ts): when the
  * drain returns the backlog, and what the cursor's cap of 500 ids does to it.
  */
module TimestampDrain {
  import opened Wrappers
  import opened Counting
  import opened Dedupe
  import opened DedupePages
  import opened DedupeCap
  import opened Drain

  // ---- pages of a fixed source: `timestamp` ----

  /** A listing of a fixed catalog that leaves out only items stamped before the boundary. */
  ghost predicate Lists(catalog: seq<Item>, t: Instant, fetched: seq<Item>) {
    && DistinctIds(fetched)
    && (forall i :: 0 <= i < |fetched| ==> fetched[i] in catalog)
    && (forall c :: c in catalog && (c.updatedAt.At? ==> c.updatedAt.instant >= t) ==> c in fetched)
  }

  /** The backlog of a state over the whole catalog. */
  ghost function Backlog(catalog: seq<Item>, s: State): seq<Keyed>
    requires Readable(catalog)
  {
    Chronological(catalog, Some(s.t), s.ids, s.t)
  }

  lemma ListedReadable(catalog: seq<Item>, t: Instant, fetched: seq<Item>)
    requires Catalog(catalog) && Lists(catalog, t, fetched)
    ensures Readable(fetched) && AllComplete(fetched)
  {
    forall i | 0 <= i < |fetched| ensures !fetched[i].updatedAt.Unreadable? && fetched[i].complete {
      var j :| 0 <= j < |catalog| && catalog[j] == fetched[i];
    }
  }

  /** A new item of one listing is new, under the same key, in any other that holds it. */
  lemma SameKey(a: seq<Item>, b: seq<Item>, s: State, p: Instant, q: Instant, k: Keyed)
    requires Readable(a) && DistinctIds(a) && Readable(b) && DistinctIds(b)
    requires k in Chronological(a, Some(s.t), s.ids, p)
    requires forall c :: c in a && (c.updatedAt.At? ==> c.updatedAt.instant >= s.t) ==> c in b
    ensures k in Chronological(b, Some(s.t), s.ids, q)
  {
    ChronologicalIsFresh(a, Some(s.t), s.ids, p);
    ChronologicalIsFresh(b, Some(s.t), s.ids, q);
    var i :| 0 <= i < |a| && k == KeyOf(a[i], Some(s.t), p) && IsNew(k, Some(s.t), s.ids);
    assert a[i] in b;
    var j :| 0 <= j < |b| && b[j] == a[i];
    assert k == KeyOf(b[j], Some(s.t), q);
  }

  /** The backlog does not depend on which listing the source answers with, nor on the clock. */
  lemma BacklogIsListing(catalog: seq<Item>, s: State, fetched: seq<Item>, p: Instant)
    requires Catalog(catalog) && Lists(catalog, s.t, fetched) && Readable(fetched)
    ensures Chronological(fetched, Some(s.t), s.ids, p) == Backlog(catalog, s)
  {
    var a, b := Chronological(fetched, Some(s.t), s.ids, p), Backlog(catalog, s);
    ChronologicalIsFresh(fetched, Some(s.t), s.ids, p);
    ChronologicalIsFresh(catalog, Some(s.t), s.ids, s.t);
    forall k | k in a ensures k in b { SameKey(fetched, catalog, s, p, s.t, k); }
    forall k | k in b ensures k in a { SameKey(catalog, fetched, s, s.t, p, k); }
    OneOrder(a, b);
  }

  /** Ids of the unstamped items and of those stamped `a`. */
  ghost function Sharing(catalog: seq<Item>, a: Instant): set<Id> {
    set c | c in catalog && (c.updatedAt.At? ==> c.updatedAt.instant == a) :: c.id
  }

  ghost function WithoutStamp(catalog: seq<Item>): set<Id> {
    set c | c in catalog && c.updatedAt.Unstamped? :: c.id
  }

  // ---- what a cursor has to hold on to ----

  /** From the first id on that still matters. */
  function LiveTail(ids: seq<Id>, live: set<Id>): seq<Id> {
    if ids == [] || ids[0] in live then ids else LiveTail(ids[1..], live)
  }

  lemma {:induction false} LiveTailIs(ids: seq<Id>, live: set<Id>) returns (i: nat)
    ensures i <= |ids| && LiveTail(ids, live) == ids[i..]
    ensures (forall j :: 0 <= j < i ==> ids[j] !in live) && (i < |ids| ==> ids[i] in live)
  {
    if ids == [] || ids[0] in live {
      i := 0;
    } else {
      var j := LiveTailIs(ids[1..], live);
      i := j + 1;
      assert ids[1..][j..] == ids[i..];
    }
  }

  lemma {:induction false} LiveTailFrom(ids: seq<Id>, live: set<Id>, i: nat)
    requires i <= |ids| && (forall j :: 0 <= j < i ==> ids[j] !in live) && (i < |ids| ==> ids[i] in live)
    ensures LiveTail(ids, live) == ids[i..]
  {
    if i > 0 {
      LiveTailFrom(ids[1..], live, i - 1);
      assert ids[1..][i - 1..] == ids[i..];
    } else {
      assert ids[0..] == ids;
    }
  }

  lemma LiveTailJoin(a: seq<Id>, b: seq<Id>, live: set<Id>)
    requires forall id :: id in b ==> id in live
    ensures LiveTail(a + b, live) == LiveTail(a, live) + b
  {
    var i := LiveTailIs(a, live);
    assert i == |a| && b != [] ==> (a + b)[i] == b[0];
    LiveTailFrom(a + b, live, i);
    assert (a + b)[i..] == a[i..] + b;
  }

  ghost predicate SparesLive(ids: seq<Id>, live: set<Id>) {
    forall id :: id in live ==> !Cut(ids, id)
  }

  /** The cap cuts no live id exactly when at most 500 stand from the first live one on, and then it leaves those. */
  lemma CapSparesLive(ids: seq<Id>, live: set<Id>)
    requires NoDup(ids)
    ensures SparesLive(ids, live) <==> |LiveTail(ids, live)| <= MAX_BOUNDARY_IDS
    ensures SparesLive(ids, live) ==> LiveTail(LastIds(ids), live) == LiveTail(ids, live)
  {
    hide LiveTail;
    var i := LiveTailIs(ids, live);
    if |ids| > MAX_BOUNDARY_IDS {
      var from := |ids| - MAX_BOUNDARY_IDS;
      if i < from {
        CutsFirst(ids, i);
      } else {
        SparedTail(ids, live, i, from);
      }
    } else {
      assert LastIds(ids) == ids;
    }
  }

  lemma CutsFirst(ids: seq<Id>, i: nat)
    requires NoDup(ids) && i < |ids| - MAX_BOUNDARY_IDS
    ensures Cut(ids, ids[i])
  {
    var last := LastIds(ids);
    forall j | 0 <= j < |last| ensures last[j] != ids[i] {
      assert last[j] == ids[|ids| - MAX_BOUNDARY_IDS + j];
    }
  }

  lemma SparedTail(ids: seq<Id>, live: set<Id>, i: nat, from: nat)
    requires from <= i <= |ids| && (forall j :: 0 <= j < i ==> ids[j] !in live) && (i < |ids| ==> ids[i] in live)
    ensures forall id :: id in live && id in ids ==> id in ids[from..]
    ensures LiveTail(ids[from..], live) == ids[i..]
  {
    forall id | id in live && id in ids ensures id in ids[from..] {
      var j :| 0 <= j < |ids| && ids[j] == id;
      assert ids[from..][j - from] == id;
    }
    LiveTailFrom(ids[from..], live, i - from);
    assert ids[from..][i - from..] == ids[i..];
  }

  lemma {:induction false} DistinctIsItself(ids: seq<Id>)
    requires NoDup(ids)
    ensures Distinct(ids) == ids
  {
    if ids != [] {
      DistinctIsItself(ids[..|ids| - 1]);
    }
  }

  lemma LastNoDup(ids: seq<Id>)
    requires NoDup(ids)
    ensures NoDup(LastIds(ids))
  {
  }

  /** What a cursor still has to hold on to: its ids from the first on that could bring an item again. */
  ghost function Held(catalog: seq<Item>, s: State): set<Id> {
    ToSet(LiveTail(Distinct(s.ids), Sharing(catalog, s.t)))
  }

  /** What it has to hold on to once the first `m` items of the backlog are delivered: while the boundary stands, what
    * it held and these; once it has moved, the items without a stamp and those of the first `m` at the new boundary.
    */
  ghost function HeldAfter(catalog: seq<Item>, s: State, m: nat): set<Id>
    requires Readable(catalog) && 1 <= m <= |Backlog(catalog, s)|
  {
    var page := Backlog(catalog, s)[..m];
    var t := page[m - 1].at;
    (if t == s.t then Held(catalog, s) else WithoutStamp(catalog)) + IdsAt(page, t)
  }

  lemma RememberedFrom(catalog: seq<Item>, s: State, fetched: seq<Item>, p: Instant, m: nat, id: Id)
    requires Catalog(catalog) && Lists(catalog, s.t, fetched)
    requires IsPage(fetched, Some(s.t), s.ids, p, m) && id in Remembered(fetched, Some(s.t), s.ids, p, m)
    ensures
      var t := PageOf(fetched, Some(s.t), s.ids, p, m)[m - 1].at;
      (t == s.t && id in s.ids) || id in Sharing(catalog, t)
  {
    var b := Some(s.t);
    var page := PageOf(fetched, b, s.ids, p, m);
    var t := page[m - 1].at;
    RememberedIds(fetched, b, s.ids, p, m, id);
    if HoldsAtNewest(page, id, t) || HoldsPinned(page, id) {
      ChronologicalIsFresh(fetched, b, s.ids, p);
      PageSplit(Chronological(fetched, b, s.ids, p), m);
      var k :| k in page && k.id == id && (k.at == t || k.pinned);
      var i :| 0 <= i < |fetched| && k == KeyOf(fetched[i], b, p);
      assert fetched[i] in catalog;
    } else if PinnedBefore(fetched, s.ids, id) {
      var i :| 0 <= i < |fetched| && fetched[i].id == id && fetched[i].updatedAt.Unstamped?;
      assert fetched[i] in catalog;
    }
  }

  /** While the boundary stands: the ids held, then those of the page. */
  lemma HeldThere(catalog: seq<Item>, s: State, fetched: seq<Item>, p: Instant, m: nat)
    requires Catalog(catalog) && Lists(catalog, s.t, fetched) && IsPage(fetched, Some(s.t), s.ids, p, m)
    requires PageOf(fetched, Some(s.t), s.ids, p, m)[m - 1].at == s.t
    ensures ToSet(LiveTail(Remembered(fetched, Some(s.t), s.ids, p, m), Sharing(catalog, s.t)))
         == Held(catalog, s) + IdsAt(PageOf(fetched, Some(s.t), s.ids, p, m), s.t)
  {
    var b := Some(s.t);
    var page := PageOf(fetched, b, s.ids, p, m);
    var live := Sharing(catalog, s.t);
    PageShape(fetched, b, s.ids, p, m);
    NewestSet(page, s.t);
    forall id | id in NewestIds(page, s.t) ensures id in live {
      assert id in ToSet(NewestIds(page, s.t));
      var k :| k in page && k.at == s.t && k.id == id;
      var i :| 0 <= i < |fetched| && k == KeyOf(fetched[i], b, p);
      assert fetched[i] in catalog;
    }
    LiveTailJoin(Distinct(s.ids), NewestIds(page, s.t), live);
    assert Remembered(fetched, b, s.ids, p, m) == Distinct(s.ids) + NewestIds(page, s.t);
  }

  /** Once the boundary has moved: every item without a stamp has been delivered, and is remembered. */
  lemma HeldFurther(catalog: seq<Item>, s: State, fetched: seq<Item>, p: Instant, m: nat)
    requires Catalog(catalog) && Lists(catalog, s.t, fetched) && IsPage(fetched, Some(s.t), s.ids, p, m)
    requires PageOf(fetched, Some(s.t), s.ids, p, m)[m - 1].at != s.t
    ensures
      var page := PageOf(fetched, Some(s.t), s.ids, p, m);
      var r := Remembered(fetched, Some(s.t), s.ids, p, m);
      && LiveTail(r, Sharing(catalog, page[m - 1].at)) == r
      && ToSet(r) == WithoutStamp(catalog) + IdsAt(page, page[m - 1].at)
  {
    var b := Some(s.t);
    var page := PageOf(fetched, b, s.ids, p, m);
    var t := page[m - 1].at;
    var r := Remembered(fetched, b, s.ids, p, m);
    forall id | id in r ensures id in Sharing(catalog, t) {
      RememberedFrom(catalog, s, fetched, p, m, id);
    }
    LiveTailFrom(r, Sharing(catalog, t), 0);
    forall id ensures id in ToSet(r) <==> id in WithoutStamp(catalog) + IdsAt(page, t) {
      HeldFurtherId(catalog, s, fetched, p, m, id);
    }
  }

  lemma HeldFurtherId(catalog: seq<Item>, s: State, fetched: seq<Item>, p: Instant, m: nat, id: Id)
    requires Catalog(catalog) && Lists(catalog, s.t, fetched) && IsPage(fetched, Some(s.t), s.ids, p, m)
    requires PageOf(fetched, Some(s.t), s.ids, p, m)[m - 1].at != s.t
    ensures
      var page := PageOf(fetched, Some(s.t), s.ids, p, m);
      id in Remembered(fetched, Some(s.t), s.ids, p, m)
      <==> id in WithoutStamp(catalog) || id in IdsAt(page, page[m - 1].at)
  {
    var b := Some(s.t);
    var page := PageOf(fetched, b, s.ids, p, m);
    RememberedIds(fetched, b, s.ids, p, m, id);
    PageShape(fetched, b, s.ids, p, m);
    if HoldsPinned(page, id) {
      var k :| k in page && k.id == id && k.pinned;
      var i :| 0 <= i < |fetched| && k == KeyOf(fetched[i], b, p);
      assert fetched[i] in catalog;
    }
    if PinnedBefore(fetched, s.ids, id) {
      var i :| 0 <= i < |fetched| && fetched[i].id == id && fetched[i].updatedAt.Unstamped?;
      assert fetched[i] in catalog;
    }
    if id in WithoutStamp(catalog) {
      var c :| c in catalog && c.updatedAt.Unstamped? && c.id == id;
      assert c in fetched;
      var i :| 0 <= i < |fetched| && fetched[i] == c;
      if id !in s.ids {
        PinnedIsDelivered(fetched, s, p, m, i);
      }
    }
  }

  /** A page that moves the boundary holds every new item without a stamp. */
  lemma PinnedIsDelivered(fetched: seq<Item>, s: State, p: Instant, m: nat, i: nat)
    requires IsPage(fetched, Some(s.t), s.ids, p, m) && i < |fetched|
    requires PageOf(fetched, Some(s.t), s.ids, p, m)[m - 1].at != s.t
    requires fetched[i].updatedAt.Unstamped? && fetched[i].id !in s.ids
    ensures HoldsPinned(PageOf(fetched, Some(s.t), s.ids, p, m), fetched[i].id)
  {
    var b := Some(s.t);
    var all := Chronological(fetched, b, s.ids, p);
    ChronologicalIsFresh(fetched, b, s.ids, p);
    PageSplit(all, m);
    assert all[m - 1] in all;
    assert KeyOf(fetched[i], b, p) in all;
  }

  /** What a page leaves the next cursor to hold on to, before the cap, is settled by the backlog alone. */
  lemma PageHolds(catalog: seq<Item>, s: State, fetched: seq<Item>, p: Instant, m: nat)
    requires Catalog(catalog) && Lists(catalog, s.t, fetched) && IsPage(fetched, Some(s.t), s.ids, p, m)
    ensures m <= |Backlog(catalog, s)|
    ensures
      var t := PageOf(fetched, Some(s.t), s.ids, p, m)[m - 1].at;
      var tail := LiveTail(Remembered(fetched, Some(s.t), s.ids, p, m), Sharing(catalog, t));
      ToSet(tail) == HeldAfter(catalog, s, m) && |tail| == |HeldAfter(catalog, s, m)|
  {
    BacklogIsListing(catalog, s, fetched, p);
    var page := PageOf(fetched, Some(s.t), s.ids, p, m);
    var r := Remembered(fetched, Some(s.t), s.ids, p, m);
    var live := Sharing(catalog, page[m - 1].at);
    if page[m - 1].at == s.t {
      HeldThere(catalog, s, fetched, p, m);
    } else {
      HeldFurther(catalog, s, fetched, p, m);
    }
    RememberedNoDup(fetched, Some(s.t), s.ids, p, m);
    var i := LiveTailIs(r, live);
    assert NoDup(r[i..]);
    RepeatsShrink(r[i..]);
  }

  lemma BacklogShape(catalog: seq<Item>, s: State)
    requires Catalog(catalog)
    ensures Ordered(Backlog(catalog, s)) && DistinctKeys(Backlog(catalog, s))
    ensures forall k :: k in Backlog(catalog, s) ==> k.at >= s.t
  {
    ChronologicalIsFresh(catalog, Some(s.t), s.ids, s.t);
  }

  lemma NextAt(catalog: seq<Item>, s: State, fetched: seq<Item>, p: Instant, m: nat)
    requires Catalog(catalog) && Lists(catalog, s.t, fetched) && IsPage(fetched, Some(s.t), s.ids, p, m)
    ensures m <= |Backlog(catalog, s)| && After(fetched, Some(s.t), s.ids, p, m).t == Backlog(catalog, s)[m - 1].at
  {
    BacklogIsListing(catalog, s, fetched, p);
  }

  /** While that is at most 500 ids, the next cursor holds on to all of it; and otherwise the cap cuts a live one. */
  lemma NextHolds(catalog: seq<Item>, s: State, fetched: seq<Item>, p: Instant, m: nat)
    requires Catalog(catalog) && Lists(catalog, s.t, fetched) && IsPage(fetched, Some(s.t), s.ids, p, m)
    ensures m <= |Backlog(catalog, s)|
    ensures
      var next := After(fetched, Some(s.t), s.ids, p, m);
      var r := Remembered(fetched, Some(s.t), s.ids, p, m);
      && (SparesLive(r, Sharing(catalog, next.t)) <==> |HeldAfter(catalog, s, m)| <= MAX_BOUNDARY_IDS)
      && (|HeldAfter(catalog, s, m)| <= MAX_BOUNDARY_IDS ==> Held(catalog, next) == HeldAfter(catalog, s, m))
  {
    hide LiveTail, Sharing, HeldAfter, Chronological, PinnedSeen, Carried, LastIds, Distinct, Cut, SparesLive;
    PageHolds(catalog, s, fetched, p, m);
    var r := Remembered(fetched, Some(s.t), s.ids, p, m);
    var next := After(fetched, Some(s.t), s.ids, p, m);
    RememberedNoDup(fetched, Some(s.t), s.ids, p, m);
    CapSparesLive(r, Sharing(catalog, next.t));
    LastNoDup(r);
    DistinctIsItself(LastIds(r));
  }

  // ---- what a page leaves of the backlog ----

  lemma Tail(all: seq<Keyed>, m: nat)
    requires m <= |all| && DistinctKeys(all)
    ensures forall k :: k in all[m..] <==> k in all && k !in all[..m]
  {
    assert all == all[..m] + all[m..];
    forall k | k in all[m..] ensures k !in all[..m] {
      var j :| m <= j < |all| && all[j] == k;
    }
  }

  /** Whatever a page leaves behind is in the next backlog, under the same key. */
  lemma LeftInRest(catalog: seq<Item>, s: State, fetched: seq<Item>, p: Instant, m: nat, k: Keyed)
    requires Catalog(catalog) && Lists(catalog, s.t, fetched)
    requires IsPage(fetched, Some(s.t), s.ids, p, m)
    requires k in Chronological(fetched, Some(s.t), s.ids, p) && k !in PageOf(fetched, Some(s.t), s.ids, p, m)
    ensures k in Backlog(catalog, After(fetched, Some(s.t), s.ids, p, m))
  {
    var b := Some(s.t);
    var next := After(fetched, b, s.ids, p, m);
    ChronologicalIsFresh(fetched, b, s.ids, p);
    PageSplit(Chronological(fetched, b, s.ids, p), m);
    var i :| 0 <= i < |fetched| && k == KeyOf(fetched[i], b, p) && IsNew(k, b, s.ids);
    LeftBehindStaysNew(fetched, b, s.ids, p, m, i);
    assert fetched[i] in catalog;
    var j :| 0 <= j < |catalog| && catalog[j] == fetched[i];
    ChronologicalIsFresh(catalog, Some(next.t), next.ids, next.t);
    var all := Chronological(fetched, b, s.ids, p);
    assert all[m - 1] in all;
    assert KeyOf(catalog[j], Some(next.t), next.t) == k;
  }

  /** A catalog item new after the page was new before it and stayed behind, unless the cap cut its id. */
  lemma StillNew(catalog: seq<Item>, s: State, fetched: seq<Item>, p: Instant, m: nat, j: nat)
    requires Catalog(catalog) && Lists(catalog, s.t, fetched)
    requires IsPage(fetched, Some(s.t), s.ids, p, m) && j < |catalog|
    requires NewUnder(catalog[j].id, catalog[j].updatedAt, After(fetched, Some(s.t), s.ids, p, m))
    ensures
      var k := KeyOf(catalog[j], Some(After(fetched, Some(s.t), s.ids, p, m).t), p);
      || (k in Chronological(fetched, Some(s.t), s.ids, p) && k !in PageOf(fetched, Some(s.t), s.ids, p, m))
      || (k.id in Sharing(catalog, After(fetched, Some(s.t), s.ids, p, m).t)
          && Cut(Remembered(fetched, Some(s.t), s.ids, p, m), k.id))
  {
    var b := Some(s.t);
    var all := Chronological(fetched, b, s.ids, p);
    var next := After(fetched, b, s.ids, p, m);
    ChronologicalIsFresh(fetched, b, s.ids, p);
    PageSplit(all, m);
    assert all[m - 1] in all;
    assert next.t >= s.t;
    assert catalog[j] in catalog;
    var i :| 0 <= i < |fetched| && fetched[i] == catalog[j];
    var k := KeyOf(fetched[i], b, p);
    if k in PageOf(fetched, b, s.ids, p, m) {
      DeliveredNewIffCut(fetched, b, s.ids, p, m, i);
      assert k.at <= next.t;
    } else if !IsNew(k, b, s.ids) {
      SeenNewIffCut(fetched, b, s.ids, p, m, i);
    } else {
      assert k in all && k.at >= next.t;
    }
  }

  /** An item whose id the cap cut is new again, and was not among what stayed behind. */
  lemma CutIsNewAgain(catalog: seq<Item>, s: State, fetched: seq<Item>, p: Instant, m: nat, id: Id) returns (k: Keyed)
    requires Catalog(catalog) && Lists(catalog, s.t, fetched) && IsPage(fetched, Some(s.t), s.ids, p, m)
    requires id in Sharing(catalog, After(fetched, Some(s.t), s.ids, p, m).t)
    requires Cut(Remembered(fetched, Some(s.t), s.ids, p, m), id)
    ensures k in Backlog(catalog, After(fetched, Some(s.t), s.ids, p, m))
    ensures k.id == id && k !in Chronological(fetched, Some(s.t), s.ids, p)[m..]
  {
    var b := Some(s.t);
    var all := Chronological(fetched, b, s.ids, p);
    var next := After(fetched, b, s.ids, p, m);
    ChronologicalIsFresh(fetched, b, s.ids, p);
    PageSplit(all, m);
    assert all[m - 1] in all;
    var c :| c in catalog && (c.updatedAt.At? ==> c.updatedAt.instant == next.t) && c.id == id;
    assert c in fetched;
    var i :| 0 <= i < |fetched| && fetched[i] == c;
    CutStaysNot(fetched, s, p, m, i);
    k := KeyOf(c, Some(next.t), next.t);
    NewInBacklog(catalog, c, next);
    if k in all[m..] {
      LeftIsNew(fetched, s, p, m, k, i);
    }
  }

  lemma NewInBacklog(catalog: seq<Item>, c: Item, s: State)
    requires Catalog(catalog) && c in catalog && !c.updatedAt.Unreadable? && NewUnder(c.id, c.updatedAt, s)
    ensures KeyOf(c, Some(s.t), s.t) in Backlog(catalog, s)
  {
    ChronologicalIsFresh(catalog, Some(s.t), s.ids, s.t);
    var j :| 0 <= j < |catalog| && catalog[j] == c;
  }

  lemma LeftIsNew(fetched: seq<Item>, s: State, p: Instant, m: nat, k: Keyed, i: nat)
    requires IsPage(fetched, Some(s.t), s.ids, p, m) && k in Chronological(fetched, Some(s.t), s.ids, p)[m..]
    requires i < |fetched| && fetched[i].id == k.id
    ensures KeyOf(fetched[i], Some(s.t), p) == k && IsNew(k, Some(s.t), s.ids)
    ensures k !in PageOf(fetched, Some(s.t), s.ids, p, m)
  {
    ChronologicalIsFresh(fetched, Some(s.t), s.ids, p);
    Tail(Chronological(fetched, Some(s.t), s.ids, p), m);
    assert forall h :: 0 <= h < |fetched| && fetched[h].id == fetched[i].id ==> h == i;
  }

  lemma CutStaysNot(fetched: seq<Item>, s: State, p: Instant, m: nat, i: nat)
    requires IsPage(fetched, Some(s.t), s.ids, p, m) && i < |fetched|
    requires fetched[i].updatedAt.At? ==> fetched[i].updatedAt.instant == After(fetched, Some(s.t), s.ids, p, m).t
    requires Cut(Remembered(fetched, Some(s.t), s.ids, p, m), fetched[i].id)
    ensures NewUnder(fetched[i].id, fetched[i].updatedAt, After(fetched, Some(s.t), s.ids, p, m))
    ensures
      var k := KeyOf(fetched[i], Some(s.t), p);
      k in PageOf(fetched, Some(s.t), s.ids, p, m) || !IsNew(k, Some(s.t), s.ids)
  {
    var b := Some(s.t);
    var k := KeyOf(fetched[i], b, p);
    if k !in PageOf(fetched, b, s.ids, p, m) && IsNew(k, b, s.ids) {
      RememberedIds(fetched, b, s.ids, p, m, k.id);
      PageShape(fetched, b, s.ids, p, m);
      assert forall h :: 0 <= h < |fetched| && fetched[h].id == fetched[i].id ==> h == i;
      assert false;
    }
  }

  /** A page leaves at least the rest of the backlog to the next poll, whatever the source lists next: that and no more
    * exactly when what the cursor has to hold on to fits the cap.
    */
  lemma PageLeavesRest(catalog: seq<Item>, s: State, fetched: seq<Item>, p: Instant, m: nat)
    requires Catalog(catalog) && Lists(catalog, s.t, fetched) && IsPage(fetched, Some(s.t), s.ids, p, m)
    ensures m <= |Backlog(catalog, s)|
    ensures
      var rest, left := Backlog(catalog, After(fetched, Some(s.t), s.ids, p, m)), Backlog(catalog, s)[m..];
      && (forall k :: k in left ==> k in rest)
      && (rest == left <==> |HeldAfter(catalog, s, m)| <= MAX_BOUNDARY_IDS)
      && (rest != left ==> |rest| > |left|)
  {
    var b := Some(s.t);
    var all := Chronological(fetched, b, s.ids, p);
    var next := After(fetched, b, s.ids, p, m);
    var rest := Backlog(catalog, next);
    BacklogIsListing(catalog, s, fetched, p);
    NextHolds(catalog, s, fetched, p, m);
    ChronologicalIsFresh(fetched, b, s.ids, p);
    Tail(all, m);
    forall k | k in all[m..] ensures k in rest {
      LeftInRest(catalog, s, fetched, p, m, k);
    }
    if |HeldAfter(catalog, s, m)| <= MAX_BOUNDARY_IDS {
      RestIsLeft(catalog, s, fetched, p, m);
    } else {
      var id :| id in Sharing(catalog, next.t) && Cut(Remembered(fetched, b, s.ids, p, m), id);
      var k := CutIsNewAgain(catalog, s, fetched, p, m, id);
      MoreThan(all[m..], rest, k);
    }
  }

  lemma MoreThan(a: seq<Keyed>, b: seq<Keyed>, k: Keyed)
    requires NoDup(a) && (forall x :: x in a ==> x in b) && k in b && k !in a
    ensures |b| > |a|
  {
    assert forall x :: x in a + [k] ==> x in ToSet(b);
    JoinNoDup(a, [k]);
    NoDupBounded(a + [k], ToSet(b));
    RepeatsShrink(b);
  }

  lemma RestIsLeft(catalog: seq<Item>, s: State, fetched: seq<Item>, p: Instant, m: nat)
    requires Catalog(catalog) && Lists(catalog, s.t, fetched) && IsPage(fetched, Some(s.t), s.ids, p, m)
    requires SparesLive(Remembered(fetched, Some(s.t), s.ids, p, m),
                        Sharing(catalog, After(fetched, Some(s.t), s.ids, p, m).t))
    ensures Backlog(catalog, After(fetched, Some(s.t), s.ids, p, m)) == Chronological(fetched, Some(s.t), s.ids, p)[m..]
  {
    var b := Some(s.t);
    var all := Chronological(fetched, b, s.ids, p);
    var next := After(fetched, b, s.ids, p, m);
    var rest := Backlog(catalog, next);
    ChronologicalIsFresh(fetched, b, s.ids, p);
    ChronologicalIsFresh(catalog, Some(next.t), next.ids, next.t);
    Tail(all, m);
    forall k ensures k in rest <==> k in all[m..] {
      if k in rest {
        var j :| 0 <= j < |catalog| && k == KeyOf(catalog[j], Some(next.t), next.t) && IsNew(k, Some(next.t), next.ids);
        StillNew(catalog, s, fetched, p, m, j);
      }
      if k in all[m..] {
        LeftInRest(catalog, s, fetched, p, m, k);
      }
    }
    OneOrder(rest, all[m..]);
  }

  /** A source over a fixed catalog: whatever it leaves out is stamped before the cursor that asked. */
  ghost predicate ServesCatalog(catalog: seq<Item>, source: (nat, Option<Cursor>) -> seq<Item>) {
    forall page: nat, t: Instant, ids: seq<Id> :: Lists(catalog, t, source(page, Some(AtInstant(t, ids))))
  }

  /** What one timestamp poll answers from a cursor. */
  lemma TimestampPageOutcome(s: State, fetched: seq<Item>, since: Option<Instant>, limit: Option<nat>, p: Instant)
    requires Readable(fetched) && DistinctIds(fetched) && (limit.Some? ==> limit.value >= 1)
    ensures
      var cursor := Some(AtInstant(s.t, s.ids));
      var all := Chronological(fetched, Some(s.t), s.ids, p);
      var o := TimestampOutcome(fetched, Some(s), since, cursor, limit, p);
      && o.Ok? && o.value.items == FirstOf(ItemsOf(all), limit)
      && (o.value.hasMore <==> limit.Some? && limit.value < |all|)
      && (o.value.hasMore ==> IsPage(fetched, Some(s.t), s.ids, p, limit.value))
      && (o.value.hasMore ==> o.value.nextCursor == CursorOf(After(fetched, Some(s.t), s.ids, p, limit.value)))
  {
    var all := Chronological(fetched, Some(s.t), s.ids, p);
    assert ItemsOf(Delivered(all, limit)) == FirstOf(ItemsOf(all), limit);
  }

  function CursorOf(s: State): Option<Cursor> {
    Some(AtInstant(s.t, s.ids))
  }

  /** What a page of a fixed source holds passes normalization. */
  lemma PageOfCatalog(fetched: seq<Item>, b: Option<Instant>, seen: seq<Id>, p: Instant, limit: Option<nat>)
    requires Readable(fetched) && AllComplete(fetched) && DistinctIds(fetched)
    ensures PageError(FirstOf(ItemsOf(Chronological(fetched, b, seen, p)), limit)).None?
  {
    var all := Chronological(fetched, b, seen, p);
    ChronologicalIsFresh(fetched, b, seen, p);
    forall i | 0 <= i < |all| ensures all[i].item.complete && all[i].item.id == all[i].id {
      assert all[i] in all;
      var j :| 0 <= j < |fetched| && all[i] == KeyOf(fetched[j], b, p);
    }
    var page := FirstOf(ItemsOf(all), limit);
    assert AllComplete(page) && DistinctIds(page);
  }

  /** `runPoll` on a fixed source: the checks pass what the page holds. */
  lemma TimestampRunPoll(s: State, fetched: seq<Item>, since: Option<Instant>, limit: Option<nat>, p: Instant)
    requires Readable(fetched) && AllComplete(fetched) && DistinctIds(fetched) && (limit.Some? ==> limit.value >= 1)
    ensures RunPoll(Timestamp, fetched, CursorOf(s), since, limit, p)
         == TimestampOutcome(fetched, Some(s), since, CursorOf(s), limit, p)
  {
    hide TimestampOutcome, Chronological, PageError, FirstOf, CheckedPoll, NextState, ItemsOf;
    TimestampPageOutcome(s, fetched, since, limit, p);
    PageOfCatalog(fetched, Some(s.t), s.ids, p, limit);
    CheckedPasses(TimestampOutcome(fetched, Some(s), since, CursorOf(s), limit, p));
  }

  ghost function TimestampLeft(catalog: seq<Item>): Option<Cursor> -> seq<Item>
    requires Readable(catalog)
  {
    (c: Option<Cursor>) =>
      if c.Some? && c.value.AtInstant? then ItemsOf(Backlog(catalog, State(c.value.t, c.value.ids))) else []
  }

  /** What `runPoll` answers on a fixed source, in terms of the backlog: never an error, and a cursor that has moved. */
  lemma TimestampAnswer(
      catalog: seq<Item>, s: State, fetched: seq<Item>, since: Option<Instant>, limit: Option<nat>, p: Instant)
    requires Catalog(catalog) && Lists(catalog, s.t, fetched) && (limit.Some? ==> limit.value >= 1)
    ensures Readable(fetched)
    ensures
      var all := Backlog(catalog, s);
      var r := RunPoll(Timestamp, fetched, CursorOf(s), since, limit, p);
      && r.Ok? && r.value.items == FirstOf(ItemsOf(all), limit)
      && (r.value.hasMore <==> limit.Some? && limit.value < |all|)
      && (r.value.hasMore ==>
            && IsPage(fetched, Some(s.t), s.ids, p, limit.value)
            && r.value.nextCursor == CursorOf(After(fetched, Some(s.t), s.ids, p, limit.value))
            && r.value.nextCursor != CursorOf(s))
  {
    ListedReadable(catalog, s.t, fetched);
    TimestampRunPoll(s, fetched, since, limit, p);
    TimestampPageOutcome(s, fetched, since, limit, p);
    BacklogIsListing(catalog, s, fetched, p);
    if limit.Some? && limit.value < |Backlog(catalog, s)| {
      CursorMoves(fetched, s, p, limit.value);
    }
  }

  /** The cursor a page earns is another one: it remembers what the page ends with. */
  lemma CursorMoves(fetched: seq<Item>, s: State, p: Instant, m: nat)
    requires IsPage(fetched, Some(s.t), s.ids, p, m)
    ensures After(fetched, Some(s.t), s.ids, p, m) != s
  {
    var page := PageOf(fetched, Some(s.t), s.ids, p, m);
    PageShape(fetched, Some(s.t), s.ids, p, m);
    assert page[m - 1] in page;
    if page[m - 1].at == s.t {
      LastIsKept(Some(s.t), s.ids, PinnedSeen(fetched, Some(s.t), s.ids, p), page);
    }
  }

  lemma LastIsKept(b: Option<Instant>, seen: seq<Id>, pinnedSeen: seq<Id>, page: seq<Keyed>)
    requires page != [] && DistinctKeys(page)
    ensures exists id :: id in NextState(b, seen, pinnedSeen, page).ids && HoldsAtNewest(page, id, page[|page| - 1].at)
  {
    var newest := NewestIds(page, page[|page| - 1].at);
    var ids := Carried(b, seen, pinnedSeen, page);
    assert newest != [] && ids[|ids| - 1] == newest[|newest| - 1];
    NewestAreThere(page, page[|page| - 1].at);
    assert LastIds(ids)[|LastIds(ids)| - 1] == ids[|ids| - 1];
    assert newest[|newest| - 1] in newest;
    assert newest[|newest| - 1] in NextState(b, seen, pinnedSeen, page).ids;
  }

  lemma {:induction false} NewestAreThere(page: seq<Keyed>, newest: Instant)
    ensures forall id :: id in NewestIds(page, newest) ==> HoldsAtNewest(page, id, newest)
  {
    if page != [] && page[|page| - 1].at == newest {
      NewestAreThere(page[..|page| - 1], newest);
      assert page == page[..|page| - 1] + [page[|page| - 1]];
    }
  }

  // ---- the drain that returns the backlog ----

  /** What the cursor has to hold on to fits the cap after every page cut at `m`, `m + limit` and so on. */
  ghost predicate FitsFrom(catalog: seq<Item>, s: State, limit: nat, m: nat)
    requires Readable(catalog) && limit >= 1 && m >= 1
    decreases |Backlog(catalog, s)| - m
  {
    m >= |Backlog(catalog, s)|
    || (|HeldAfter(catalog, s, m)| <= MAX_BOUNDARY_IDS && FitsFrom(catalog, s, limit, m + limit))
  }

  /** Every page a drain cuts before its last one leaves the cursor no more than 500 ids to hold on to. */
  ghost predicate Fits(catalog: seq<Item>, s: State, limit: Option<nat>)
    requires Readable(catalog) && (limit.Some? ==> limit.value >= 1)
  {
    limit.Some? ==> FitsFrom(catalog, s, limit.value, limit.value)
  }

  /** What is held after more pages from the next cursor is what is held after them from this one. */
  lemma HeldLater(catalog: seq<Item>, s: State, fetched: seq<Item>, p: Instant, m: nat, n: nat)
    requires Catalog(catalog) && Lists(catalog, s.t, fetched) && IsPage(fetched, Some(s.t), s.ids, p, m)
    requires m + n <= |Backlog(catalog, s)| && n >= 1
    requires |HeldAfter(catalog, s, m)| <= MAX_BOUNDARY_IDS
    ensures
      var next := After(fetched, Some(s.t), s.ids, p, m);
      n <= |Backlog(catalog, next)| && HeldAfter(catalog, next, n) == HeldAfter(catalog, s, m + n)
  {
    hide Backlog, After, Held, Lists, IdsAt, WithoutStamp, Chronological;
    var all := Backlog(catalog, s);
    PageLeavesRest(catalog, s, fetched, p, m);
    NextHolds(catalog, s, fetched, p, m);
    NextAt(catalog, s, fetched, p, m);
    BacklogShape(catalog, s);
    assert all[m..][..n] == all[m..m + n];
    assert all[m..][..n][n - 1] == all[m + n - 1];
    IdsAtJoin(all, s.t, m, m + n);
  }

  lemma IdsAtJoin(all: seq<Keyed>, t: Instant, m: nat, n: nat)
    requires Ordered(all) && 1 <= m < n <= |all| && forall k :: k in all ==> k.at >= t
    ensures
      var u := all[n - 1].at;
      && t <= all[m - 1].at <= u
      && IdsAt(all[..n], u) == IdsAt(all[m..n], u) + if all[m - 1].at == u then IdsAt(all[..m], u) else {}
  {
    var u := all[n - 1].at;
    assert Le(all[m - 1], all[n - 1]) && all[m - 1] in all;
    assert all[..n] == all[..m] + all[m..n];
    forall k | k in all[..m] ensures k.at <= all[m - 1].at {
      var i :| 0 <= i < m && all[i] == k;
      assert i < m - 1 ==> Le(all[i], all[m - 1]);
    }
  }

  lemma {:induction false} FitsLater(
      catalog: seq<Item>, s: State, fetched: seq<Item>, p: Instant, limit: nat, m: nat, n: nat)
    requires Catalog(catalog) && Lists(catalog, s.t, fetched) && IsPage(fetched, Some(s.t), s.ids, p, m)
    requires limit >= 1 && n >= 1 && m <= |Backlog(catalog, s)| && |HeldAfter(catalog, s, m)| <= MAX_BOUNDARY_IDS
    ensures FitsFrom(catalog, After(fetched, Some(s.t), s.ids, p, m), limit, n) <==> FitsFrom(catalog, s, limit, m + n)
    decreases |Backlog(catalog, s)| - n
  {
    hide Backlog, After, HeldAfter, Lists;
    PageLeavesRest(catalog, s, fetched, p, m);
    if m + n < |Backlog(catalog, s)| {
      HeldLater(catalog, s, fetched, p, m, n);
      FitsLater(catalog, s, fetched, p, limit, m, n + limit);
    }
  }

  ghost function TimestampWithin(catalog: seq<Item>, limit: Option<nat>): Option<Cursor> -> bool
    requires Readable(catalog) && (limit.Some? ==> limit.value >= 1)
  {
    (c: Option<Cursor>) => c.Some? && c.value.AtInstant? && Fits(catalog, State(c.value.t, c.value.ids), limit)
  }

  lemma TimestampTriggerPagesOff(
      catalog: seq<Item>, source: (nat, Option<Cursor>) -> seq<Item>, clock: nat -> Instant, since: Option<Instant>,
      limit: Option<nat>, n: nat, c: Option<Cursor>)
    requires Catalog(catalog) && ServesCatalog(catalog, source) && (limit.Some? ==> limit.value >= 1)
    requires TimestampWithin(catalog, limit)(c)
    ensures PagesOff(TriggerOf(Timestamp, source, clock, since, limit), TimestampLeft(catalog),
                     TimestampWithin(catalog, limit), limit, n, c)
  {
    hide Backlog, After, HeldAfter, RunPoll;
    var s := State(c.value.t, c.value.ids);
    var fetched, p := source(n, c), clock(n);
    assert Lists(catalog, s.t, fetched);
    TimestampAnswer(catalog, s, fetched, since, limit, p);
    var all := Backlog(catalog, s);
    if limit.Some? && limit.value < |all| {
      PageLeavesRest(catalog, s, fetched, p, limit.value);
      FitsLater(catalog, s, fetched, p, limit.value, limit.value, limit.value);
      ItemsOfRest(all, limit.value);
    }
  }

  lemma ItemsOfRest(all: seq<Keyed>, m: nat)
    requires m <= |all|
    ensures ItemsOf(all[m..]) == ItemsOf(all)[m..]
  {
  }

  /** From any cursor a drain of a fixed source returns exactly its backlog, once each and in order, in as many pages as
    * that takes, as long as what the cursor has to hold on to fits the cap; whatever the source lists besides, and
    * whatever the clock says.
    */
  lemma TimestampDrainIsBacklog(
      catalog: seq<Item>, s: State, source: (nat, Option<Cursor>) -> seq<Item>, clock: nat -> Instant,
      since: Option<Instant>, limit: Option<nat>)
    requires Catalog(catalog) && ServesCatalog(catalog, source) && (limit.Some? ==> limit.value >= 1)
    requires Fits(catalog, s, limit)
    ensures
      var all := Backlog(catalog, s);
      var pages := PagesFor(|all|, limit);
      DrainFrom(TriggerOf(Timestamp, source, clock, since, limit), CursorOf(s), 0, [])
      == if pages <= MAX_POLL_PAGES then Drained(Ok(ItemsOf(all)), pages)
        else Drained(Err(TooManyPages), MAX_POLL_PAGES)
  {
    var poll := TriggerOf(Timestamp, source, clock, since, limit);
    var left, within := TimestampLeft(catalog), TimestampWithin(catalog, limit);
    forall n: nat, c | within(c) ensures PagesOff(poll, left, within, limit, n, c) {
      TimestampTriggerPagesOff(catalog, source, clock, since, limit, n, c);
    }
    DrainTakesAll(poll, left, within, limit, CursorOf(s), 0, []);
    assert left(CursorOf(s)) == ItemsOf(Backlog(catalog, s));
    assert [] + left(CursorOf(s)) == left(CursorOf(s));
  }

  // ---- the drain that returns more ----

  /** A drain that succeeds returns at least as many items as the backlog has, and one more for a cursor that does not
    * fit the cap.
    */
  lemma {:induction false} DrainReturnsAtLeast(
      catalog: seq<Item>, s: State, source: (nat, Option<Cursor>) -> seq<Item>, clock: nat -> Instant,
      since: Option<Instant>, limit: Option<nat>, page: nat, collected: seq<Item>)
    requires Catalog(catalog) && ServesCatalog(catalog, source) && (limit.Some? ==> limit.value >= 1)
    requires page <= MAX_POLL_PAGES
    ensures
      var r := DrainFrom(TriggerOf(Timestamp, source, clock, since, limit), CursorOf(s), page, collected).result;
      r.Ok? ==> |r.value| >= |collected| + |Backlog(catalog, s)| + if Fits(catalog, s, limit) then 0 else 1
    decreases MAX_POLL_PAGES - page
  {
    hide Backlog, After, HeldAfter, Lists, IsPage, RunPoll;
    if page < MAX_POLL_PAGES {
      var fetched, p := source(page, CursorOf(s)), clock(page);
      assert Lists(catalog, s.t, fetched);
      TimestampAnswer(catalog, s, fetched, since, limit, p);
      if limit.Some? && limit.value < |Backlog(catalog, s)| {
        var m := limit.value;
        var next := After(fetched, Some(s.t), s.ids, p, m);
        var o := RunPoll(Timestamp, fetched, CursorOf(s), since, limit, p).value;
        DrainReturnsAtLeast(catalog, next, source, clock, since, limit, page + 1, collected + o.items);
        PageLeavesRest(catalog, s, fetched, p, m);
        if |HeldAfter(catalog, s, m)| <= MAX_BOUNDARY_IDS {
          FitsLater(catalog, s, fetched, p, m, m, m);
        }
      }
    }
  }

  /** A drain returns the backlog, each item once and in order, if and only if what the cursor has to hold on to fits
    * the cap after every page but the last and the page bound is enough.
    */
  lemma DrainIsBacklogIffFits(
      catalog: seq<Item>, s: State, source: (nat, Option<Cursor>) -> seq<Item>, clock: nat -> Instant,
      since: Option<Instant>, limit: Option<nat>)
    requires Catalog(catalog) && ServesCatalog(catalog, source) && (limit.Some? ==> limit.value >= 1)
    ensures
      var all := Backlog(catalog, s);
      DrainFrom(TriggerOf(Timestamp, source, clock, since, limit), CursorOf(s), 0, []).result == Ok(ItemsOf(all))
      <==> Fits(catalog, s, limit) && PagesFor(|all|, limit) <= MAX_POLL_PAGES
  {
    if Fits(catalog, s, limit) {
      TimestampDrainIsBacklog(catalog, s, source, clock, since, limit);
    } else {
      DrainReturnsAtLeast(catalog, s, source, clock, since, limit, 0, []);
    }
  }

  /** At most 500 ids share any instant, those without a stamp counted with each. */
  ghost predicate FewShareAnInstant(catalog: seq<Item>, s: State) {
    && |(set id | id in s.ids) + Sharing(catalog, s.t)| <= MAX_BOUNDARY_IDS
    && forall a :: |Sharing(catalog, a)| <= MAX_BOUNDARY_IDS
  }

  /** Then every page fits. */
  lemma FewFit(catalog: seq<Item>, s: State, limit: Option<nat>)
    requires Catalog(catalog) && (limit.Some? ==> limit.value >= 1) && FewShareAnInstant(catalog, s)
    ensures Fits(catalog, s, limit)
  {
    if limit.Some? {
      FewFitFrom(catalog, s, limit.value, limit.value);
    }
  }

  lemma {:induction false} FewFitFrom(catalog: seq<Item>, s: State, limit: nat, m: nat)
    requires Catalog(catalog) && limit >= 1 && m >= 1 && FewShareAnInstant(catalog, s)
    ensures FitsFrom(catalog, s, limit, m)
    decreases |Backlog(catalog, s)| - m
  {
    if m < |Backlog(catalog, s)| {
      HeldIsShared(catalog, s, m);
      FewFitFrom(catalog, s, limit, m + limit);
    }
  }

  lemma HeldIsShared(catalog: seq<Item>, s: State, m: nat)
    requires Catalog(catalog) && 1 <= m <= |Backlog(catalog, s)| && FewShareAnInstant(catalog, s)
    ensures |HeldAfter(catalog, s, m)| <= MAX_BOUNDARY_IDS
  {
    hide Backlog, Sharing, IdsAt, Held, WithoutStamp;
    var t := Backlog(catalog, s)[..m][m - 1].at;
    var seen := set id | id in s.ids;
    ArrivedIsShared(catalog, s, m);
    if t == s.t {
      HeldIsSeen(catalog, s);
      SubsetSize(HeldAfter(catalog, s, m), seen + Sharing(catalog, t));
    } else {
      SubsetSize(HeldAfter(catalog, s, m), Sharing(catalog, t));
    }
  }

  lemma HeldIsSeen(catalog: seq<Item>, s: State)
    ensures Held(catalog, s) <= set id | id in s.ids
  {
    var i := LiveTailIs(Distinct(s.ids), Sharing(catalog, s.t));
  }

  lemma ArrivedIsShared(catalog: seq<Item>, s: State, m: nat)
    requires Catalog(catalog) && 1 <= m <= |Backlog(catalog, s)|
    ensures
      var page := Backlog(catalog, s)[..m];
      IdsAt(page, page[m - 1].at) + WithoutStamp(catalog) <= Sharing(catalog, page[m - 1].at)
  {
    var page := Backlog(catalog, s)[..m];
    var t := page[m - 1].at;
    ChronologicalIsFresh(catalog, Some(s.t), s.ids, s.t);
    forall id | id in IdsAt(page, t) ensures id in Sharing(catalog, t) {
      var k :| k in page && k.at == t && k.id == id;
      assert k in Backlog(catalog, s);
      var j :| 0 <= j < |catalog| && k == KeyOf(catalog[j], Some(s.t), s.t);
      assert catalog[j] in catalog;
    }
  }

  /** A drain that succeeds has delivered the whole backlog, whatever the cap cut. */
  lemma {:induction false} DrainHasAll(
      catalog: seq<Item>, s: State, source: (nat, Option<Cursor>) -> seq<Item>, clock: nat -> Instant,
      since: Option<Instant>, limit: Option<nat>, page: nat, collected: seq<Item>)
    requires Catalog(catalog) && ServesCatalog(catalog, source) && (limit.Some? ==> limit.value >= 1)
    requires page <= MAX_POLL_PAGES
    ensures
      var r := DrainFrom(TriggerOf(Timestamp, source, clock, since, limit), CursorOf(s), page, collected).result;
      r.Ok? ==> (forall x :: x in collected || x in ItemsOf(Backlog(catalog, s)) ==> x in r.value)
    decreases MAX_POLL_PAGES - page
  {
    hide Backlog, After, HeldAfter, Lists, IsPage, RunPoll;
    if page < MAX_POLL_PAGES {
      var all := Backlog(catalog, s);
      var fetched, p := source(page, CursorOf(s)), clock(page);
      assert Lists(catalog, s.t, fetched);
      TimestampAnswer(catalog, s, fetched, since, limit, p);
      if limit.Some? && limit.value < |all| {
        var m := limit.value;
        var next := After(fetched, Some(s.t), s.ids, p, m);
        DrainHasAll(catalog, next, source, clock, since, limit, page + 1, collected + ItemsOf(all)[..m]);
        PageLeavesRest(catalog, s, fetched, p, m);
        ItemsLeft(all, m, Backlog(catalog, next));
      }
    }
  }

  /** Every item of a backlog is on the page or in what contains the rest. */
  lemma ItemsLeft(all: seq<Keyed>, m: nat, rest: seq<Keyed>)
    requires m <= |all| && forall k :: k in all[m..] ==> k in rest
    ensures forall x :: x in ItemsOf(all) ==> x in ItemsOf(all)[..m] || x in ItemsOf(rest)
  {
    forall x | x in ItemsOf(all) ensures x in ItemsOf(all)[..m] || x in ItemsOf(rest) {
      var i :| 0 <= i < |all| && ItemsOf(all)[i] == x;
      if i < m {
        assert ItemsOf(all)[..m][i] == x;
      } else {
        assert all[m..][i - m] == all[i];
        assert all[i] in all[m..];
        var j :| 0 <= j < |rest| && rest[j] == all[i];
        assert ItemsOf(rest)[j] == x;
      }
    }
  }
}
