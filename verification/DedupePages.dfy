/** What delivering a page does to the items a source lists: which stay new, which stop being new. */
module DedupePages {
  import opened Wrappers
  import opened Dedupe

  // ---- membership of the lists a poll builds ----

  lemma {:induction false} FreshMembers(fetched: seq<Item>, b: Option<Instant>, seen: seq<Id>, p: Instant)
    requires Readable(fetched)
    ensures forall k :: k in FreshOf(fetched, b, seen, p) <==>
      exists i :: 0 <= i < |fetched| && k == KeyOf(fetched[i], b, p) && IsNew(k, b, seen)
  {
    if fetched != [] {
      FreshMembers(fetched[..|fetched| - 1], b, seen, p);
    }
  }

  lemma {:induction false} FreshDistinct(fetched: seq<Item>, b: Option<Instant>, seen: seq<Id>, p: Instant)
    requires Readable(fetched) && DistinctIds(fetched)
    ensures DistinctKeys(FreshOf(fetched, b, seen, p))
  {
    if fetched != [] {
      var n := |fetched| - 1;
      FreshDistinct(fetched[..n], b, seen, p);
      FreshMembers(fetched[..n], b, seen, p);
      var r := FreshOf(fetched[..n], b, seen, p);
      forall j | 0 <= j < |r| ensures r[j].id != fetched[n].id {
        assert r[j] in r;
      }
    }
  }

  lemma {:induction false} PinnedSeenMembers(fetched: seq<Item>, b: Option<Instant>, seen: seq<Id>, p: Instant)
    requires Readable(fetched)
    ensures forall id :: id in PinnedSeen(fetched, b, seen, p) <==>
      exists i :: 0 <= i < |fetched| && fetched[i].id == id
        && fetched[i].updatedAt.Unstamped? && b.Some? && id in seen
  {
    if fetched != [] {
      PinnedSeenMembers(fetched[..|fetched| - 1], b, seen, p);
    }
  }

  lemma {:induction false} InsertDistinct(k: Keyed, s: seq<Keyed>)
    requires DistinctKeys(s) && Ordered(s) && forall i :: 0 <= i < |s| ==> s[i].id != k.id
    ensures DistinctKeys(Insert(k, s))
  {
    if s == [] || (Le(k, s[0]) && !Le(s[0], k)) {
    } else {
      InsertDistinct(k, s[1..]);
      InsertKeeps(k, s[1..]);
      var r := Insert(k, s[1..]);
      forall j | 0 <= j < |r| ensures r[j].id != s[0].id {
        assert r[j] in multiset(r);
        assert r[j] == k || r[j] in s[1..];
      }
    }
  }

  lemma {:induction false} SortDistinct(s: seq<Keyed>)
    requires DistinctKeys(s)
    ensures DistinctKeys(Sort(s))
  {
    if s != [] {
      var n := |s| - 1;
      SortDistinct(s[..n]);
      SortSorts(s[..n]);
      var r := Sort(s[..n]);
      forall i | 0 <= i < |r| ensures r[i].id != s[n].id {
        assert r[i] in multiset(r);
        assert r[i] in s[..n];
      }
      InsertDistinct(s[n], r);
    }
  }

  /** The backlog of one poll: ordered, each id once, and exactly the new items of the listing. */
  lemma ChronologicalIsFresh(fetched: seq<Item>, b: Option<Instant>, seen: seq<Id>, p: Instant)
    requires Readable(fetched) && DistinctIds(fetched)
    ensures Ordered(Chronological(fetched, b, seen, p)) && DistinctKeys(Chronological(fetched, b, seen, p))
    ensures forall k :: k in Chronological(fetched, b, seen, p) <==>
      exists i :: 0 <= i < |fetched| && k == KeyOf(fetched[i], b, p) && IsNew(k, b, seen)
  {
    var f := FreshOf(fetched, b, seen, p);
    FreshMembers(fetched, b, seen, p);
    FreshDistinct(fetched, b, seen, p);
    SortSorts(f);
    SortDistinct(f);
    forall k ensures k in Sort(f) <==> k in f {
      assert k in Sort(f) <==> k in multiset(Sort(f));
    }
  }

  lemma {:induction false} NewestMembers(delivered: seq<Keyed>, newest: Instant)
    requires Ordered(delivered) && forall k :: k in delivered ==> k.at <= newest
    ensures forall id :: id in NewestIds(delivered, newest) <==> exists k ::
      k in delivered && k.at == newest && k.id == id
  {
    if delivered == [] {
    } else {
      var n := |delivered| - 1;
      assert delivered == delivered[..n] + [delivered[n]];
      if delivered[n].at != newest {
        forall i | 0 <= i < |delivered| ensures delivered[i].at != newest {
          assert i < n ==> Le(delivered[i], delivered[n]);
        }
      } else {
        NewestMembers(delivered[..n], newest);
      }
    }
  }

  lemma {:induction false} PinnedMembers(delivered: seq<Keyed>)
    ensures forall id :: id in PinnedIds(delivered) <==> exists k :: k in delivered && k.pinned && k.id == id
  {
    if delivered != [] {
      var n := |delivered| - 1;
      PinnedMembers(delivered[..n]);
      assert delivered == delivered[..n] + [delivered[n]];
    }
  }

  /** Cutting an ordered backlog: what stays behind is no older and shares no id with what went. */
  lemma PageSplit(all: seq<Keyed>, m: nat)
    requires Ordered(all) && DistinctKeys(all) && 1 <= m <= |all|
    ensures forall k :: k in all[..m] ==> k in all && k.at <= all[m - 1].at
    ensures forall k :: k in all && k !in all[..m] ==> k.at >= all[m - 1].at
    ensures forall k, q :: k in all && k !in all[..m] && q in all[..m] ==> k.id != q.id
    ensures forall k, q :: k in all && q in all && k.id == q.id ==> k == q
  {
    forall k | k in all[..m] ensures k in all && k.at <= all[m - 1].at {
      var j :| 0 <= j < m && all[..m][j] == k;
      assert j < m - 1 ==> Le(all[j], all[m - 1]);
    }
    assert forall h :: 0 <= h < m ==> all[h] in all[..m] by {
      forall h | 0 <= h < m ensures all[h] in all[..m] { assert all[..m][h] == all[h]; }
    }
    forall k | k in all && k !in all[..m] ensures k.at >= all[m - 1].at {
      var j :| 0 <= j < |all| && all[j] == k;
      assert Le(all[m - 1], all[j]);
    }
    forall k, q | k in all && k !in all[..m] && q in all[..m] ensures k.id != q.id {
      var j :| 0 <= j < |all| && all[j] == k;
      var h :| 0 <= h < m && all[..m][h] == q;
    }
  }

  // ---- one page ----

  /** A non-empty page `delivered` cut from the front of what one poll found. */
  ghost predicate IsPage(fetched: seq<Item>, b: Option<Instant>, seen: seq<Id>, p: Instant, m: nat) {
    && Readable(fetched) && DistinctIds(fetched)
    && 1 <= m <= |Chronological(fetched, b, seen, p)|
  }

  ghost function PageOf(fetched: seq<Item>, b: Option<Instant>, seen: seq<Id>, p: Instant, m: nat): seq<Keyed>
    requires IsPage(fetched, b, seen, p, m)
  {
    Chronological(fetched, b, seen, p)[..m]
  }

  /** The ids the next cursor should remember, before the cap. */
  ghost function Remembered(fetched: seq<Item>, b: Option<Instant>, seen: seq<Id>, p: Instant, m: nat): seq<Id>
    requires IsPage(fetched, b, seen, p, m)
  {
    Carried(b, seen, PinnedSeen(fetched, b, seen, p), PageOf(fetched, b, seen, p, m))
  }

  ghost function After(fetched: seq<Item>, b: Option<Instant>, seen: seq<Id>, p: Instant, m: nat): State
    requires IsPage(fetched, b, seen, p, m)
  {
    NextState(b, seen, PinnedSeen(fetched, b, seen, p), PageOf(fetched, b, seen, p, m))
  }

  ghost predicate NewUnder(id: Id, stamp: Stamp, s: State) {
    match stamp
    case At(u) => u > s.t || (u == s.t && id !in s.ids)
    case _ => id !in s.ids
  }

  ghost predicate PinnedBefore(fetched: seq<Item>, seen: seq<Id>, id: Id) {
    id in seen && exists i :: 0 <= i < |fetched| && fetched[i].id == id && fetched[i].updatedAt.Unstamped?
  }

  ghost predicate HoldsAtNewest(page: seq<Keyed>, id: Id, newest: Instant) {
    exists k :: k in page && k.id == id && k.at == newest
  }

  ghost predicate HoldsPinned(page: seq<Keyed>, id: Id) {
    exists k :: k in page && k.id == id && k.pinned
  }

  lemma CarriedMembers(b: Option<Instant>, seen: seq<Id>, pinnedSeen: seq<Id>, page: seq<Keyed>, id: Id)
    requires page != [] && Ordered(page)
    ensures
      var newest := page[|page| - 1].at;
      id in Carried(b, seen, pinnedSeen, page) <==>
        || HoldsAtNewest(page, id, newest)
        || (if b == Some(newest) then id in seen else HoldsPinned(page, id) || id in pinnedSeen)
  {
    var n := |page| - 1;
    forall k | k in page ensures k.at <= page[n].at {
      var i :| 0 <= i < |page| && page[i] == k;
      assert i < n ==> Le(page[i], page[n]);
    }
    NewestMembers(page, page[n].at);
    PinnedMembers(page);
  }

  lemma PageOrdered(fetched: seq<Item>, b: Option<Instant>, seen: seq<Id>, p: Instant, m: nat)
    requires IsPage(fetched, b, seen, p, m)
    ensures Ordered(PageOf(fetched, b, seen, p, m)) && DistinctKeys(PageOf(fetched, b, seen, p, m))
  {
    ChronologicalIsFresh(fetched, b, seen, p);
  }

  /** Exactly which ids a page leaves remembered, before the cap. */
  lemma RememberedIds(fetched: seq<Item>, b: Option<Instant>, seen: seq<Id>, p: Instant, m: nat, id: Id)
    requires IsPage(fetched, b, seen, p, m)
    ensures
      var page := PageOf(fetched, b, seen, p, m);
      var newest := page[m - 1].at;
      id in Remembered(fetched, b, seen, p, m) <==>
        || HoldsAtNewest(page, id, newest)
        || (if b == Some(newest) then id in seen
            else HoldsPinned(page, id) || (b.Some? && PinnedBefore(fetched, seen, id)))
  {
    PageOrdered(fetched, b, seen, p, m);
    PinnedSeenMembers(fetched, b, seen, p);
    CarriedMembers(b, seen, PinnedSeen(fetched, b, seen, p), PageOf(fetched, b, seen, p, m), id);
  }

  /** Nothing is lost: a new item the page left behind is new to the next poll, whatever the cap cut. */
  lemma LeftBehindStaysNew(fetched: seq<Item>, b: Option<Instant>, seen: seq<Id>, p: Instant, m: nat, i: nat)
    requires IsPage(fetched, b, seen, p, m) && i < |fetched|
    requires IsNew(KeyOf(fetched[i], b, p), b, seen)
    requires KeyOf(fetched[i], b, p) !in PageOf(fetched, b, seen, p, m)
    ensures NewUnder(fetched[i].id, fetched[i].updatedAt, After(fetched, b, seen, p, m))
    ensures KeyOf(fetched[i], b, p).at >= After(fetched, b, seen, p, m).t
  {
    var all := Chronological(fetched, b, seen, p);
    ChronologicalIsFresh(fetched, b, seen, p);
    PageSplit(all, m);
    var k := KeyOf(fetched[i], b, p);
    assert k in all && k !in all[..m];
    RememberedIds(fetched, b, seen, p, m, fetched[i].id);
    var t := all[m - 1].at;
    assert k.at >= t;
    if k.id in Remembered(fetched, b, seen, p, m) {
      assert b.Some? && k.id in seen;
      assert k.at > b.value;
      assert fetched[i].updatedAt.At?;
      assert forall j :: 0 <= j < |fetched| && fetched[j].id == k.id ==> j == i;
      assert b == Some(t);
    }
  }

  /** The one way a delivered item is forgotten at once: poll time stood in for its stamp, and the page went past it. */
  ghost predicate PassedPollTime(b: Option<Instant>, p: Instant, item: Item, newest: Instant) {
    b.None? && item.updatedAt.Unstamped? && newest != p
  }

  /** An id the cap cut from the cursor. */
  ghost predicate Cut(ids: seq<Id>, id: Id) {
    id in ids && id !in LastIds(ids)
  }

  /** A page remembers what it delivered at its last instant, and the unstamped items it could pin. */
  lemma DeliveredIsRemembered(fetched: seq<Item>, b: Option<Instant>, seen: seq<Id>, p: Instant, m: nat, i: nat)
    requires IsPage(fetched, b, seen, p, m) && i < |fetched|
    requires KeyOf(fetched[i], b, p) in PageOf(fetched, b, seen, p, m)
    ensures
      var newest := After(fetched, b, seen, p, m).t;
      && KeyOf(fetched[i], b, p).at <= newest
      && (fetched[i].id in Remembered(fetched, b, seen, p, m)
          <==> KeyOf(fetched[i], b, p).at == newest || KeyOf(fetched[i], b, p).pinned)
  {
    hide Chronological, PinnedSeen, Remembered, LastIds, Carried;
    var all := Chronological(fetched, b, seen, p);
    ChronologicalIsFresh(fetched, b, seen, p);
    PageSplit(all, m);
    RememberedIds(fetched, b, seen, p, m, fetched[i].id);
    assert IsNew(KeyOf(fetched[i], b, p), b, seen);
  }

  /** What a page delivered is new to the next poll only if poll time was passed or the cap cut its id. */
  lemma DeliveredNewIffCut(fetched: seq<Item>, b: Option<Instant>, seen: seq<Id>, p: Instant, m: nat, i: nat)
    requires IsPage(fetched, b, seen, p, m) && i < |fetched|
    requires KeyOf(fetched[i], b, p) in PageOf(fetched, b, seen, p, m)
    ensures
      var next := After(fetched, b, seen, p, m);
      NewUnder(fetched[i].id, fetched[i].updatedAt, next)
      <==> PassedPollTime(b, p, fetched[i], next.t) || Cut(Remembered(fetched, b, seen, p, m), fetched[i].id)
  {
    DeliveredIsRemembered(fetched, b, seen, p, m, i);
  }

  /** What was not new before a page is new after it exactly when the cap cut its id, as long as no id was remembered
    * for an item stamped before the boundary.
    */
  lemma SeenNewIffCut(fetched: seq<Item>, b: Option<Instant>, seen: seq<Id>, p: Instant, m: nat, i: nat)
    requires IsPage(fetched, b, seen, p, m) && i < |fetched| && SeenAtBoundary(fetched[i], b, seen)
    requires !IsNew(KeyOf(fetched[i], b, p), b, seen)
    ensures NewUnder(fetched[i].id, fetched[i].updatedAt, After(fetched, b, seen, p, m))
      <==> Cut(Remembered(fetched, b, seen, p, m), fetched[i].id)
  {
    var all := Chronological(fetched, b, seen, p);
    ChronologicalIsFresh(fetched, b, seen, p);
    PageSplit(all, m);
    assert all[m - 1] in all;
    RememberedIds(fetched, b, seen, p, m, fetched[i].id);
    assert forall j :: 0 <= j < |fetched| && fetched[j].id == fetched[i].id ==> j == i;
  }

  /** Of the listed items, only ones at the boundary or after it, or without a stamp, are remembered. */
  ghost predicate SeenAtBoundary(item: Item, b: Option<Instant>, seen: seq<Id>) {
    item.id in seen && item.updatedAt.At? && b.Some? ==> item.updatedAt.instant >= b.value
  }

  /** Passing poll time does bring an item twice: an unstamped item delivered by a first poll beside one stamped later
    * is new again to the cursor that poll answers.
    */
  lemma PassedPollTimeComesTwice(a: Item, b: Item, p: Instant)
    requires a.updatedAt.Unstamped? && b.updatedAt.At? && p < b.updatedAt.instant && a.id != b.id
    ensures
      var u := b.updatedAt.instant;
      && TimestampOutcome([a, b], None, None, None, None, p)
        == Ok(PollOutcome([a, b], Some(AtInstant(u, [b.id])), false))
      && NewUnder(a.id, a.updatedAt, State(u, [b.id]))
  {
    var x, y := KeyOf(a, None, p), KeyOf(b, None, p);
    TwoChronological(a, b, p, x, y);
    TwoRemembered(x, y);
    assert ItemsOf([x, y]) == [a, b];
  }

  lemma TwoChronological(a: Item, b: Item, p: Instant, x: Keyed, y: Keyed)
    requires a.updatedAt.Unstamped? && b.updatedAt.At? && p < b.updatedAt.instant
    requires x == KeyOf(a, None, p) && y == KeyOf(b, None, p)
    ensures Chronological([a, b], None, [], p) == [x, y] && PinnedSeen([a, b], None, [], p) == []
  {
    assert [a, b][..1] == [a] && [a][..0] == [];
    assert FreshOf([a], None, [], p) == [x] && PinnedSeen([a], None, [], p) == [];
    assert [x, y][..1] == [x] && [x][..0] == [];
    assert Insert(x, []) == [x] && Sort([x]) == [x];
    assert Insert(y, []) == [y] && [x][1..] == [];
    assert Insert(y, [x]) == [x, y];
  }

  lemma TwoRemembered(x: Keyed, y: Keyed)
    requires x.at < y.at && !x.pinned && !y.pinned
    ensures NextState(None, [], [], [x, y]) == State(y.at, [y.id])
  {
    assert [x, y][..1] == [x] && [x][..0] == [];
    assert PinnedIds([]) == [] && PinnedIds([x]) == [] && PinnedIds([x, y]) == [];
    assert NewestIds([x], y.at) == [];
    assert NewestIds([x, y], y.at) == [y.id];
  }
}
