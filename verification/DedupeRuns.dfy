/** Whole runs of timestamp polls against a source that changes between them. */
module DedupeRuns {
  import opened Wrappers
  import opened Dedupe
  import opened DedupePages
  import opened DedupeCap
  import opened Counting

  /** Every id the source ever held with its latest stamp, and the ids it has dropped for good. */
  datatype World = World(stamps: map<Id, Stamp>, gone: set<Id>)

  datatype Version = Version(id: Id, stamp: Stamp)

  datatype Poll = Poll(world: World, fetched: seq<Item>, since: Option<Instant>, limit: Option<nat>, polledAt: Instant)

  /** `floor` is the `since` that seeded the cursor; `exact` says every page so far was clean. */
  datatype Run = Run(cursor: Option<Cursor>, world: World, log: seq<Version>, floor: Option<Instant>, exact: bool)

  ghost predicate Live(w: World, id: Id) {
    id in w.stamps && id !in w.gone
  }

  // ---- what the source may do ----

  /** An item that changed was stamped no earlier than the cursor's instant, and later than it was before. */
  ghost predicate ChangeOk(before: World, after: World, id: Id, t: Instant)
    requires id in after.stamps
  {
    match after.stamps[id]
    case Unreadable => false
    case Unstamped => id in before.stamps ==> before.stamps[id] == Unstamped
    case At(u) =>
      if id !in before.stamps then u >= t
      else match before.stamps[id]
           case At(v) => u == v || (u > v && u >= t)
           case _ => u > t
  }

  ghost predicate Changes(before: World, after: World, state: Option<State>) {
    && before.gone <= after.gone
    && before.stamps.Keys <= after.stamps.Keys
    && (forall id :: Live(after, id) ==> !after.stamps[id].Unreadable?)
    && (state.Some? ==> forall id :: Live(after, id) ==> ChangeOk(before, after, id, state.value.t))
  }

  ghost predicate Listed(fetched: seq<Item>, id: Id) {
    exists i :: 0 <= i < |fetched| && fetched[i].id == id
  }

  /** `fetch` returns current items, and leaves out only stamped ones older than the boundary. */
  ghost predicate Fetches(w: World, boundary: Option<Instant>, fetched: seq<Item>) {
    && Readable(fetched) && DistinctIds(fetched)
    && (forall i :: 0 <= i < |fetched| ==> Live(w, fetched[i].id) && w.stamps[fetched[i].id] == fetched[i].updatedAt)
    && (forall id :: Live(w, id) && AtOrAfter(w.stamps[id], boundary) ==> Listed(fetched, id))
  }

  ghost predicate AtOrAfter(stamp: Stamp, boundary: Option<Instant>) {
    stamp.At? && boundary.Some? ==> stamp.instant >= boundary.value
  }

  ghost function StateOf(cursor: Option<Cursor>): Option<State> {
    if cursor.Some? && cursor.value.AtInstant? then Some(State(cursor.value.t, cursor.value.ids)) else None
  }

  ghost predicate LegalPoll(r: Run, p: Poll) {
    && Changes(r.world, p.world, StateOf(r.cursor))
    && Fetches(p.world, BoundaryOf(StateOf(r.cursor), p.since), p.fetched)
  }

  // ---- runs ----

  ghost function Start(w: World): Run {
    Run(None, w, [], None, true)
  }

  ghost function VersionsOf(items: seq<Item>): seq<Version> {
    seq(|items|, i requires 0 <= i < |items| => Version(items[i].id, items[i].updatedAt))
  }

  ghost function PageSize(r: Run, p: Poll): nat
    requires Readable(p.fetched)
  {
    var state := StateOf(r.cursor);
    |Delivered(Chronological(p.fetched, BoundaryOf(state, p.since), SeenOf(state), p.polledAt), p.limit)|
  }

  /** No listed item is to come again after the page: none was passed by, none crowded out of the cursor. */
  ghost predicate CleanPage(r: Run, p: Poll)
    requires Readable(p.fetched) && DistinctIds(p.fetched)
  {
    var state := StateOf(r.cursor);
    var b, seen := BoundaryOf(state, p.since), SeenOf(state);
    var m := PageSize(r, p);
    m > 0 ==>
      var page := PageOf(p.fetched, b, seen, p.polledAt, m);
      forall i :: 0 <= i < |p.fetched| ==> !ComesAgain(p.fetched, b, seen, p.polledAt, page, i)
  }

  ghost function Outcome(r: Run, p: Poll): PollOutcome
    requires Readable(p.fetched)
  {
    TimestampOutcome(p.fetched, StateOf(r.cursor), p.since, r.cursor, p.limit, p.polledAt).value
  }

  /** One poll: the cursor it answers is the next one's, and what it delivers is logged. */
  ghost function Advance(r: Run, p: Poll): Run
    requires LegalPoll(r, p)
  {
    var o := Outcome(r, p);
    Run(o.nextCursor, p.world, r.log + VersionsOf(o.items),
        if r.cursor.None? then p.since else r.floor,
        r.exact && CleanPage(r, p))
  }

  ghost predicate Legal(r: Run, polls: seq<Poll>)
    decreases |polls|
  {
    polls == [] || (LegalPoll(r, polls[0]) && Legal(Advance(r, polls[0]), polls[1..]))
  }

  ghost function Play(r: Run, polls: seq<Poll>): Run
    requires Legal(r, polls)
    decreases |polls|
  {
    if polls == [] then r else Play(Advance(r, polls[0]), polls[1..])
  }

  // ---- the invariant ----

  ghost predicate InScope(floor: Option<Instant>, stamp: Stamp) {
    AtOrAfter(stamp, floor)
  }

  ghost predicate WellKept(r: Run) {
    && (r.cursor.None? ==> r.log == [])
    && (r.cursor.Some? ==> r.cursor.value.AtInstant?)
    && (forall v :: v in r.log ==> v.id in r.world.stamps && !v.stamp.Unreadable?)
    && (forall v :: v in r.log && Live(r.world, v.id) && v.stamp.At?
         ==> r.world.stamps[v.id].At? && v.stamp.instant <= r.world.stamps[v.id].instant)
    && (forall s :: StateOf(r.cursor) == Some(s) ==>
          && (r.floor.Some? ==> s.t >= r.floor.value)
          && (forall id :: id in s.ids ==> id in r.world.stamps)
          && (forall id ::
            id in s.ids && Live(r.world, id) && r.world.stamps[id].At? ==> r.world.stamps[id].instant >= s.t))
  }

  /** Whatever was never delivered is still new. */
  ghost predicate NothingLost(r: Run) {
    forall s, id :: StateOf(r.cursor) == Some(s) && Live(r.world, id)
      && Version(id, r.world.stamps[id]) !in r.log && InScope(r.floor, r.world.stamps[id])
      ==> NewUnder(id, r.world.stamps[id], s)
  }

  /** Whatever was delivered is no longer new, and was delivered once. */
  ghost predicate NothingTwice(r: Run) {
    && (forall s, id :: (StateOf(r.cursor) == Some(s) && Live(r.world, id) && Version(id, r.world.stamps[id]) in r.log)
                        ==> !NewUnder(id, r.world.stamps[id], s))
    && NoDup(r.log)
  }

  ghost predicate Inv(r: Run) {
    WellKept(r) && NothingLost(r) && (r.exact ==> NothingTwice(r))
  }

  /** The source changing keeps the invariant. */
  lemma ChangeKeeps(r: Run, w: World)
    requires Inv(r) && Changes(r.world, w, StateOf(r.cursor))
    ensures Inv(r.(world := w))
  {
    var r' := r.(world := w);
    forall v | v in r.log && Live(w, v.id) && v.stamp.At?
      ensures w.stamps[v.id].At? && v.stamp.instant <= w.stamps[v.id].instant
    {
      assert ChangeOk(r.world, w, v.id, StateOf(r.cursor).value.t);
      assert Live(r.world, v.id);
    }
    forall s, id | StateOf(r.cursor) == Some(s) && Live(w, id)
      ensures id in s.ids && w.stamps[id].At? ==> w.stamps[id].instant >= s.t
      ensures Version(id, w.stamps[id]) !in r.log && InScope(r.floor, w.stamps[id]) ==> NewUnder(id, w.stamps[id], s)
      ensures r.exact && Version(id, w.stamps[id]) in r.log ==> !NewUnder(id, w.stamps[id], s)
    {
      assert ChangeOk(r.world, w, id, s.t);
      assert id in r.world.stamps ==> Live(r.world, id);
    }
  }

  // ---- a poll keeps the invariant ----

  /** What one poll answers, in terms of the page it cuts. */
  lemma OutcomeIsPage(r: Run, p: Poll)
    requires Readable(p.fetched) && DistinctIds(p.fetched)
    ensures
      var state := StateOf(r.cursor);
      var b, seen := BoundaryOf(state, p.since), SeenOf(state);
      var m := PageSize(r, p);
      if m == 0 then Outcome(r, p).nextCursor == r.cursor && Outcome(r, p).items == []
      else
        && IsPage(p.fetched, b, seen, p.polledAt, m)
        && Outcome(r, p).items == ItemsOf(PageOf(p.fetched, b, seen, p.polledAt, m))
        && StateOf(Outcome(r, p).nextCursor) == Some(After(p.fetched, b, seen, p.polledAt, m))
        && Outcome(r, p).nextCursor.value.AtInstant?
  {
    var state := StateOf(r.cursor);
    var b, seen := BoundaryOf(state, p.since), SeenOf(state);
    var all := Chronological(p.fetched, b, seen, p.polledAt);
    var m := PageSize(r, p);
    assert Delivered(all, p.limit) == all[..m];
  }

  /** A version the page delivers is one that is listed, and its key is on the page. */
  ghost predicate Delivers(fetched: seq<Item>, b: Option<Instant>, p: Instant, page: seq<Keyed>, v: Version)
    requires Readable(fetched)
  {
    exists i ::
      0 <= i < |fetched| && KeyOf(fetched[i], b, p) in page && v == Version(fetched[i].id, fetched[i].updatedAt)
  }

  lemma DeliveredIsListed(fetched: seq<Item>, b: Option<Instant>, seen: seq<Id>, p: Instant, m: nat, v: Version)
    requires IsPage(fetched, b, seen, p, m)
    ensures v in VersionsOf(ItemsOf(PageOf(fetched, b, seen, p, m)))
      <==> Delivers(fetched, b, p, PageOf(fetched, b, seen, p, m), v)
  {
    var page := PageOf(fetched, b, seen, p, m);
    var vs := VersionsOf(ItemsOf(page));
    ChronologicalIsFresh(fetched, b, seen, p);
    if v in vs {
      var h :| 0 <= h < |vs| && vs[h] == v;
      assert page[h] == Chronological(fetched, b, seen, p)[h];
      assert page[h] in Chronological(fetched, b, seen, p);
      var i :| 0 <= i < |fetched| && page[h] == KeyOf(fetched[i], b, p);
    }
    if Delivers(fetched, b, p, page, v) {
      var i :| 0 <= i < |fetched| && KeyOf(fetched[i], b, p) in page
        && v == Version(fetched[i].id, fetched[i].updatedAt);
      var h :| 0 <= h < |page| && page[h] == KeyOf(fetched[i], b, p);
      assert vs[h] == v;
    }
  }

  /** What a page delivers is listed and new, and no version is on it twice. */
  lemma OnPage(fetched: seq<Item>, b: Option<Instant>, seen: seq<Id>, p: Instant, m: nat)
    requires IsPage(fetched, b, seen, p, m)
    ensures
      var page := PageOf(fetched, b, seen, p, m);
      && (forall v :: v in VersionsOf(ItemsOf(page)) <==> Delivers(fetched, b, p, page, v))
      && (forall k :: k in page ==> IsNew(k, b, seen))
      && (forall i, j :: 0 <= i < j < m ==> VersionsOf(ItemsOf(page))[i] != VersionsOf(ItemsOf(page))[j])
  {
    forall v
      ensures v in VersionsOf(ItemsOf(PageOf(fetched, b, seen, p, m)))
        <==> Delivers(fetched, b, p, PageOf(fetched, b, seen, p, m), v) {
      DeliveredIsListed(fetched, b, seen, p, m, v);
    }
    PageIsNew(fetched, b, seen, p, m);
    VersionsApart(fetched, b, seen, p, m);
  }

  lemma PageIsNew(fetched: seq<Item>, b: Option<Instant>, seen: seq<Id>, p: Instant, m: nat)
    requires IsPage(fetched, b, seen, p, m)
    ensures forall k :: k in PageOf(fetched, b, seen, p, m) ==> IsNew(k, b, seen)
    ensures forall k :: k in PageOf(fetched, b, seen, p, m) ==> exists i ::
      0 <= i < |fetched| && k == KeyOf(fetched[i], b, p)
  {
    ChronologicalIsFresh(fetched, b, seen, p);
    PageSplit(Chronological(fetched, b, seen, p), m);
  }

  lemma VersionsApart(fetched: seq<Item>, b: Option<Instant>, seen: seq<Id>, p: Instant, m: nat)
    requires IsPage(fetched, b, seen, p, m)
    ensures NoDup(VersionsOf(ItemsOf(PageOf(fetched, b, seen, p, m))))
  {
    var page := PageOf(fetched, b, seen, p, m);
    PageOrdered(fetched, b, seen, p, m);
    PageIsNew(fetched, b, seen, p, m);
    forall i, j | 0 <= i < j < m ensures VersionsOf(ItemsOf(page))[i] != VersionsOf(ItemsOf(page))[j] {
      assert page[i].id != page[j].id;
      assert page[i] in page && page[j] in page;
    }
  }

  lemma NextIsLater(fetched: seq<Item>, b: Option<Instant>, seen: seq<Id>, p: Instant, m: nat)
    requires IsPage(fetched, b, seen, p, m)
    ensures b.Some? ==> After(fetched, b, seen, p, m).t >= b.value
  {
    var all := Chronological(fetched, b, seen, p);
    ChronologicalIsFresh(fetched, b, seen, p);
    assert all[m - 1] in all;
  }

  /** Before a poll, a listed item is new to it exactly as the invariant says of its version. */
  lemma NewBefore(r: Run, p: Poll, i: nat)
    requires Inv(r) && r.world == p.world && LegalPoll(r, p) && i < |p.fetched|
    ensures
      var state := StateOf(r.cursor);
      var b, seen := BoundaryOf(state, p.since), SeenOf(state);
      var v := Version(p.fetched[i].id, p.fetched[i].updatedAt);
      var floor := if r.cursor.None? then p.since else r.floor;
      var isNew := IsNew(KeyOf(p.fetched[i], b, p.polledAt), b, seen);
      && (v !in r.log && InScope(floor, v.stamp) ==> isNew)
      && (isNew && r.exact ==> v !in r.log)
      && (isNew ==> InScope(floor, v.stamp))
  {
    var id := p.fetched[i].id;
    assert Live(p.world, id) && p.world.stamps[id] == p.fetched[i].updatedAt;
    if r.cursor.Some? {
      var s := StateOf(r.cursor).value;
      assert StateOf(r.cursor) == Some(s);
    }
  }

  /** A listed version is delivered exactly when its key is on the page. */
  lemma DeliveredVersion(fetched: seq<Item>, b: Option<Instant>, seen: seq<Id>, p: Instant, m: nat, i: nat)
    requires IsPage(fetched, b, seen, p, m) && i < |fetched|
    ensures
      var page := PageOf(fetched, b, seen, p, m);
      var k := KeyOf(fetched[i], b, p);
      && (Version(fetched[i].id, fetched[i].updatedAt) in VersionsOf(ItemsOf(page)) <==> k in page)
      && (k in page ==> IsNew(k, b, seen))
  {
    OnPage(fetched, b, seen, p, m);
    assert forall j :: 0 <= j < |fetched| && fetched[j].id == fetched[i].id ==> j == i;
  }

  ghost predicate AfterPageOk(r: Run, p: Poll, v: Version)
    requires LegalPoll(r, p) && PageSize(r, p) > 0
  {
    var state := StateOf(r.cursor);
    var b, seen := BoundaryOf(state, p.since), SeenOf(state);
    var m := PageSize(r, p);
    var floor := if r.cursor.None? then p.since else r.floor;
    IsPage(p.fetched, b, seen, p.polledAt, m) &&
    var delivered := VersionsOf(ItemsOf(PageOf(p.fetched, b, seen, p.polledAt, m)));
    var next := After(p.fetched, b, seen, p.polledAt, m);
    && (v !in r.log && v !in delivered && InScope(floor, v.stamp) ==> NewUnder(v.id, v.stamp, next))
    && (r.exact && CleanPage(r, p) && (v in r.log || v in delivered) ==> !NewUnder(v.id, v.stamp, next))
    && (r.exact && v in delivered ==> v !in r.log)
  }

  lemma SeenIsAtBoundary(r: Run, p: Poll)
    requires Inv(r) && r.world == p.world && LegalPoll(r, p)
    ensures forall i :: 0 <= i < |p.fetched| ==>
      SeenAtBoundary(p.fetched[i], BoundaryOf(StateOf(r.cursor), p.since), SeenOf(StateOf(r.cursor)))
  {
    if r.cursor.Some? {
      assert StateOf(r.cursor) == Some(StateOf(r.cursor).value);
    }
  }

  lemma ListedItemAfterPage(r: Run, p: Poll, i: nat)
    requires Inv(r) && r.world == p.world && LegalPoll(r, p) && PageSize(r, p) > 0 && i < |p.fetched|
    ensures AfterPageOk(r, p, Version(p.fetched[i].id, p.fetched[i].updatedAt))
  {
    var state := StateOf(r.cursor);
    var b, seen := BoundaryOf(state, p.since), SeenOf(state);
    var m := PageSize(r, p);
    OutcomeIsPage(r, p);
    SeenIsAtBoundary(r, p);
    NewAfterPage(p.fetched, b, seen, p.polledAt, m, i);
    NewBefore(r, p, i);
    DeliveredVersion(p.fetched, b, seen, p.polledAt, m, i);
  }

  lemma UnlistedItemAfterPage(r: Run, p: Poll, id: Id)
    requires Inv(r) && r.world == p.world && LegalPoll(r, p) && PageSize(r, p) > 0
    requires Live(p.world, id) && !Listed(p.fetched, id)
    ensures AfterPageOk(r, p, Version(id, p.world.stamps[id]))
  {
    var state := StateOf(r.cursor);
    var b, seen := BoundaryOf(state, p.since), SeenOf(state);
    var m := PageSize(r, p);
    OutcomeIsPage(r, p);
    OnPage(p.fetched, b, seen, p.polledAt, m);
    NextIsLater(p.fetched, b, seen, p.polledAt, m);
    var v := Version(id, p.world.stamps[id]);
    assert v !in VersionsOf(ItemsOf(PageOf(p.fetched, b, seen, p.polledAt, m)));
    assert !AtOrAfter(v.stamp, b);
    if r.cursor.Some? {
      assert StateOf(r.cursor) == Some(StateOf(r.cursor).value);
    }
  }

  /** What a non-empty page does to one live item. */
  lemma ItemAfterPage(r: Run, p: Poll, id: Id)
    requires Inv(r) && r.world == p.world && LegalPoll(r, p) && PageSize(r, p) > 0 && Live(p.world, id)
    ensures AfterPageOk(r, p, Version(id, p.world.stamps[id]))
  {
    if Listed(p.fetched, id) {
      var i :| 0 <= i < |p.fetched| && p.fetched[i].id == id;
      assert p.fetched[i].updatedAt == p.world.stamps[id];
      ListedItemAfterPage(r, p, i);
    } else {
      UnlistedItemAfterPage(r, p, id);
    }
  }

  /** Where the ids the next cursor remembers come from. */
  lemma NextIdsFrom(fetched: seq<Item>, b: Option<Instant>, seen: seq<Id>, p: Instant, m: nat, id: Id)
    requires IsPage(fetched, b, seen, p, m) && id in After(fetched, b, seen, p, m).ids
    ensures
      var t := After(fetched, b, seen, p, m).t;
      || (b == Some(t) && id in seen)
      || exists i ::
        0 <= i < |fetched| && fetched[i].id == id && (fetched[i].updatedAt.At? ==> fetched[i].updatedAt.instant == t)
  {
    var t := After(fetched, b, seen, p, m).t;
    var page := PageOf(fetched, b, seen, p, m);
    RememberedIds(fetched, b, seen, p, m, id);
    assert id in Remembered(fetched, b, seen, p, m);
    if b != Some(t) && PinnedBefore(fetched, seen, id) {
      var i :| 0 <= i < |fetched| && fetched[i].id == id && fetched[i].updatedAt.Unstamped?;
    } else if !(b == Some(t) && id in seen) {
      PageIsNew(fetched, b, seen, p, m);
      var k :| k in page && k.id == id && (k.at == t || k.pinned);
      var i :| 0 <= i < |fetched| && k == KeyOf(fetched[i], b, p);
    }
  }

  /** The ids the next cursor remembers are known ids, and none of them is stamped before its instant. */
  lemma NextIdsKnown(r: Run, p: Poll, id: Id)
    requires Inv(r) && r.world == p.world && LegalPoll(r, p) && PageSize(r, p) > 0
    ensures
      var state := StateOf(r.cursor);
      var b, seen := BoundaryOf(state, p.since), SeenOf(state);
      var m := PageSize(r, p);
      IsPage(p.fetched, b, seen, p.polledAt, m) &&
      var next := After(p.fetched, b, seen, p.polledAt, m);
      id in next.ids ==>
        && id in p.world.stamps
        && (Live(p.world, id) && p.world.stamps[id].At? ==> p.world.stamps[id].instant >= next.t)
  {
    var state := StateOf(r.cursor);
    var b, seen := BoundaryOf(state, p.since), SeenOf(state);
    var m := PageSize(r, p);
    OutcomeIsPage(r, p);
    if id in After(p.fetched, b, seen, p.polledAt, m).ids {
      NextIdsFrom(p.fetched, b, seen, p.polledAt, m, id);
    }
  }

  /** A poll keeps the invariant. */
  lemma PollKeeps(r: Run, p: Poll)
    requires Inv(r) && r.world == p.world && LegalPoll(r, p)
    ensures Inv(Advance(r, p))
  {
    OutcomeIsPage(r, p);
    var state := StateOf(r.cursor);
    var b, seen := BoundaryOf(state, p.since), SeenOf(state);
    var m := PageSize(r, p);
    var r' := Advance(r, p);
    if m == 0 {
      assert r'.log == r.log;
    } else {
      OnPage(p.fetched, b, seen, p.polledAt, m);
      NextIsLater(p.fetched, b, seen, p.polledAt, m);
      var delivered := VersionsOf(ItemsOf(PageOf(p.fetched, b, seen, p.polledAt, m)));
      assert r'.log == r.log + delivered;
      forall v | v in delivered
        ensures Live(p.world, v.id) && p.world.stamps[v.id] == v.stamp && !v.stamp.Unreadable?
      {
        var i :| 0 <= i < |p.fetched| && v == Version(p.fetched[i].id, p.fetched[i].updatedAt);
      }
      forall id | Live(p.world, id) { ItemAfterPage(r, p, id); }
      forall id { NextIdsKnown(r, p, id); }
      assert WellKept(r');
      assert NothingLost(r');
      if r'.exact {
        LogNoRepeat(r, p);
      }
    }
  }

  /** After clean pages the next one, clean or not, delivers nothing the log already holds. */
  lemma LogNoRepeat(r: Run, p: Poll)
    requires Inv(r) && r.world == p.world && LegalPoll(r, p) && PageSize(r, p) > 0 && r.exact
    ensures NoDup(Advance(r, p).log)
  {
    OutcomeIsPage(r, p);
    var state := StateOf(r.cursor);
    var b, seen, m := BoundaryOf(state, p.since), SeenOf(state), PageSize(r, p);
    var delivered := VersionsOf(ItemsOf(PageOf(p.fetched, b, seen, p.polledAt, m)));
    var log := r.log + delivered;
    OnPage(p.fetched, b, seen, p.polledAt, m);
    forall v | v in delivered ensures v !in r.log {
      var i :| 0 <= i < |p.fetched| && KeyOf(p.fetched[i], b, p.polledAt) in PageOf(p.fetched, b, seen, p.polledAt, m)
        && v == Version(p.fetched[i].id, p.fetched[i].updatedAt);
      NewBefore(r, p, i);
    }
    forall i, j | 0 <= i < j < |log| ensures log[i] != log[j] {
      var n := |r.log|;
      if i < n <= j {
        assert delivered[j - n] in delivered && r.log[i] in r.log;
      } else if n <= i {
        assert delivered[i - n] != delivered[j - n];
      }
    }
  }

  lemma AdvanceNoRepeat(r: Run, p: Poll)
    requires Inv(r) && LegalPoll(r, p) && r.exact
    ensures NoDup(Advance(r, p).log)
  {
    ChangeKeeps(r, p.world);
    OutcomeIsPage(r, p);
    if PageSize(r, p) > 0 {
      LogNoRepeat(r.(world := p.world), p);
    } else {
      assert Advance(r, p).log == r.log;
    }
  }

  lemma AdvanceKeeps(r: Run, p: Poll)
    requires Inv(r) && LegalPoll(r, p)
    ensures Inv(Advance(r, p))
  {
    ChangeKeeps(r, p.world);
    var q := r.(world := p.world);
    assert LegalPoll(q, p);
    assert Advance(q, p) == Advance(r, p);
    PollKeeps(q, p);
  }

  lemma {:induction false} PlayKeeps(r: Run, polls: seq<Poll>)
    requires Inv(r) && Legal(r, polls)
    ensures Inv(Play(r, polls))
    decreases |polls|
  {
    if polls != [] {
      AdvanceKeeps(r, polls[0]);
      PlayKeeps(Advance(r, polls[0]), polls[1..]);
    }
  }

  // ---- main results ----

  /** Over every run: an item in scope that was never delivered in its current version is new to the next poll;
    * and while no page was unclean, an item that is new was never delivered in its current version. */
  lemma NewExactlyWhenNeverDelivered(w: World, polls: seq<Poll>, next: Poll, i: nat)
    requires Legal(Start(w), polls) && LegalPoll(Play(Start(w), polls), next) && i < |next.fetched|
    ensures
      var r := Play(Start(w), polls);
      var state := StateOf(r.cursor);
      var b := BoundaryOf(state, next.since);
      var isNew := IsNew(KeyOf(next.fetched[i], b, next.polledAt), b, SeenOf(state));
      var v := Version(next.fetched[i].id, next.fetched[i].updatedAt);
      var floor := if r.cursor.None? then next.since else r.floor;
      && (v !in r.log && InScope(floor, v.stamp) ==> isNew)
      && (r.exact ==> (isNew <==> v !in r.log && InScope(floor, v.stamp)))
  {
    var r := Play(Start(w), polls);
    PlayKeeps(Start(w), polls);
    ChangeKeeps(r, next.world);
    var q := r.(world := next.world);
    assert LegalPoll(q, next);
    NewBefore(q, next, i);
  }

  /** As long as all pages but the last were clean, no version is delivered twice in the whole run. */
  lemma NoVersionTwice(w: World, polls: seq<Poll>, last: Poll)
    requires Legal(Start(w), polls) && Play(Start(w), polls).exact && LegalPoll(Play(Start(w), polls), last)
    ensures NoDup(Advance(Play(Start(w), polls), last).log)
  {
    PlayKeeps(Start(w), polls);
    AdvanceNoRepeat(Play(Start(w), polls), last);
  }

  lemma SeenAtAnyPoll(w: World, polls: seq<Poll>, p: Poll)
    requires Legal(Start(w), polls) && LegalPoll(Play(Start(w), polls), p)
    ensures
      var state := StateOf(Play(Start(w), polls).cursor);
      forall i :: 0 <= i < |p.fetched| ==> SeenAtBoundary(p.fetched[i], BoundaryOf(state, p.since), SeenOf(state))
  {
    var r := Play(Start(w), polls);
    PlayKeeps(Start(w), polls);
    ChangeKeeps(r, p.world);
    SeenIsAtBoundary(r.(world := p.world), p);
  }

  /** At any poll of any run, whatever came before, a listed item is new to the next poll exactly when it was new and
    * stayed behind, or comes again.
    */
  lemma NewAfterAnyPoll(w: World, polls: seq<Poll>, p: Poll, i: nat)
    requires Legal(Start(w), polls) && LegalPoll(Play(Start(w), polls), p) && i < |p.fetched|
    requires PageSize(Play(Start(w), polls), p) > 0
    ensures
      var r := Play(Start(w), polls);
      var b, seen := BoundaryOf(StateOf(r.cursor), p.since), SeenOf(StateOf(r.cursor));
      var k := KeyOf(p.fetched[i], b, p.polledAt);
      var page := PageOf(p.fetched, b, seen, p.polledAt, PageSize(r, p));
      var next := StateOf(Advance(r, p).cursor);
      next.Some? &&
      (NewUnder(k.id, p.fetched[i].updatedAt, next.value)
       <==> (IsNew(k, b, seen) && k !in page) || ComesAgain(p.fetched, b, seen, p.polledAt, page, i))
  {
    var r := Play(Start(w), polls);
    SeenAtAnyPoll(w, polls, p);
    OutcomeIsPage(r, p);
    var b, seen := BoundaryOf(StateOf(r.cursor), p.since), SeenOf(StateOf(r.cursor));
    NewAfterPage(p.fetched, b, seen, p.polledAt, PageSize(r, p), i);
  }

  /** An item to come again after a page is stamped no earlier than the new boundary, and its version is in the log. */
  lemma ComesAgainIsLogged(r: Run, p: Poll, i: nat)
    requires Inv(r) && r.world == p.world && LegalPoll(r, p) && PageSize(r, p) > 0 && i < |p.fetched|
    requires
      var b := BoundaryOf(StateOf(r.cursor), p.since);
      var seen := SeenOf(StateOf(r.cursor));
      var m := PageSize(r, p);
      ComesAgain(p.fetched, b, seen, p.polledAt, PageOf(p.fetched, b, seen, p.polledAt, m), i)
    ensures
      var r', v := Advance(r, p), Version(p.fetched[i].id, p.fetched[i].updatedAt);
      && v in r'.log
      && StateOf(r'.cursor).Some? && NewUnder(v.id, v.stamp, StateOf(r'.cursor).value)
      && AtOrAfter(v.stamp, Some(StateOf(r'.cursor).value.t))
  {
    var state := StateOf(r.cursor);
    var b, seen := BoundaryOf(state, p.since), SeenOf(state);
    var m := PageSize(r, p);
    OutcomeIsPage(r, p);
    SeenIsAtBoundary(r, p);
    NewAfterPage(p.fetched, b, seen, p.polledAt, m, i);
    NewBefore(r, p, i);
    NextIsLater(p.fetched, b, seen, p.polledAt, m);
    DeliveredVersion(p.fetched, b, seen, p.polledAt, m, i);
    if r.cursor.Some? {
      assert StateOf(r.cursor) == Some(StateOf(r.cursor).value);
    }
  }

  /** A poll without a limit delivers every listed item that is new to it. */
  lemma UnlimitedDelivers(r: Run, q: Poll, j: nat)
    requires LegalPoll(r, q) && q.limit.None? && j < |q.fetched|
    requires
      var b := BoundaryOf(StateOf(r.cursor), q.since);
      IsNew(KeyOf(q.fetched[j], b, q.polledAt), b, SeenOf(StateOf(r.cursor)))
    ensures Version(q.fetched[j].id, q.fetched[j].updatedAt) in VersionsOf(Outcome(r, q).items)
  {
    var state := StateOf(r.cursor);
    var b, seen := BoundaryOf(state, q.since), SeenOf(state);
    OutcomeIsPage(r, q);
    ChronologicalIsFresh(q.fetched, b, seen, q.polledAt);
    var all := Chronological(q.fetched, b, seen, q.polledAt);
    assert KeyOf(q.fetched[j], b, q.polledAt) in all;
    assert all[..PageSize(r, q)] == all;
    DeliveredVersion(q.fetched, b, seen, q.polledAt, PageSize(r, q), j);
  }

  /** A poll without a limit leaves nothing in scope undelivered: of every item the source holds, the version it has now
    * has been delivered.
    */
  lemma UnlimitedCatchesUp(w: World, polls: seq<Poll>, q: Poll, id: Id)
    requires Legal(Start(w), polls) && LegalPoll(Play(Start(w), polls), q) && q.limit.None? && Live(q.world, id)
    requires InScope(Advance(Play(Start(w), polls), q).floor, q.world.stamps[id])
    ensures Version(id, q.world.stamps[id]) in Advance(Play(Start(w), polls), q).log
  {
    var r := Play(Start(w), polls);
    if Version(id, q.world.stamps[id]) !in r.log {
      UndeliveredIsListed(w, polls, q, id);
      var j :| 0 <= j < |q.fetched| && q.fetched[j].id == id;
      NewExactlyWhenNeverDelivered(w, polls, q, j);
      UnlimitedDelivers(r, q, j);
    }
  }

  /** Whatever was never delivered is on every listing. */
  lemma UndeliveredIsListed(w: World, polls: seq<Poll>, q: Poll, id: Id)
    requires Legal(Start(w), polls) && LegalPoll(Play(Start(w), polls), q) && Live(q.world, id)
    requires InScope(Advance(Play(Start(w), polls), q).floor, q.world.stamps[id])
    requires Version(id, q.world.stamps[id]) !in Play(Start(w), polls).log
    ensures Listed(q.fetched, id)
  {
    var r := Play(Start(w), polls);
    PlayKeeps(Start(w), polls);
    ChangeKeeps(r, q.world);
    if r.cursor.Some? {
      var s := StateOf(r.cursor).value;
      assert StateOf(r.(world := q.world).cursor) == Some(s);
      assert NewUnder(id, q.world.stamps[id], s);
    }
    assert AtOrAfter(q.world.stamps[id], BoundaryOf(StateOf(r.cursor), q.since));
  }

  /** The same listing may be answered to a second poll, whatever page the first one took of it. */
  lemma SameAgain(r: Run, p: Poll)
    requires LegalPoll(r, p)
    ensures LegalPoll(Advance(r, p), p.(limit := None))
  {
    OutcomeIsPage(r, p);
    var state := StateOf(r.cursor);
    if PageSize(r, p) > 0 {
      NextIsLater(p.fetched, BoundaryOf(state, p.since), SeenOf(state), p.polledAt, PageSize(r, p));
    }
  }

  /** The page after clean ones is clean if and only if the next poll, taking all there is of an unchanged source,
    * delivers nothing a second time. `SameAgain` is such a poll.
    */
  lemma CleanIffNothingComesAgain(w: World, polls: seq<Poll>, p: Poll, q: Poll)
    requires Legal(Start(w), polls) && Play(Start(w), polls).exact && LegalPoll(Play(Start(w), polls), p)
    requires LegalPoll(Advance(Play(Start(w), polls), p), q) && q.world == p.world && q.limit.None?
    ensures
      var r := Play(Start(w), polls);
      CleanPage(r, p) <==> NoDup(Advance(Advance(r, p), q).log)
  {
    var r := Play(Start(w), polls);
    if CleanPage(r, p) {
      PlaySnoc(Start(w), polls, p);
      NoVersionTwice(w, polls + [p], q);
    } else {
      PlayKeeps(Start(w), polls);
      UncleanRedelivers(r, p, q);
    }
  }

  lemma {:induction false} PlaySnoc(r: Run, polls: seq<Poll>, p: Poll)
    requires Legal(r, polls) && LegalPoll(Play(r, polls), p)
    ensures Legal(r, polls + [p]) && Play(r, polls + [p]) == Advance(Play(r, polls), p)
    decreases |polls|
  {
    if polls != [] {
      assert (polls + [p])[1..] == polls[1..] + [p];
      PlaySnoc(Advance(r, polls[0]), polls[1..], p);
    } else {
      assert Legal(Advance(r, p), []) && (polls + [p])[1..] == [];
    }
  }

  lemma UncleanRedelivers(r: Run, p: Poll, q: Poll)
    requires Inv(r) && LegalPoll(r, p) && !CleanPage(r, p)
    requires LegalPoll(Advance(r, p), q) && q.world == p.world && q.limit.None?
    ensures !NoDup(Advance(Advance(r, p), q).log)
  {
    ChangeKeeps(r, p.world);
    var now := r.(world := p.world);
    assert Advance(now, p) == Advance(r, p) && CleanPage(now, p) == CleanPage(r, p);
    UncleanNow(now, p, q);
  }

  lemma UncleanNow(r: Run, p: Poll, q: Poll)
    requires Inv(r) && r.world == p.world && LegalPoll(r, p) && !CleanPage(r, p)
    requires LegalPoll(Advance(r, p), q) && q.world == p.world && q.limit.None?
    ensures !NoDup(Advance(Advance(r, p), q).log)
  {
    var state := StateOf(r.cursor);
    var b, seen := BoundaryOf(state, p.since), SeenOf(state);
    var page := PageOf(p.fetched, b, seen, p.polledAt, PageSize(r, p));
    var i :| 0 <= i < |p.fetched| && ComesAgain(p.fetched, b, seen, p.polledAt, page, i);
    ComesAgainIsLogged(r, p, i);
    var r', v := Advance(r, p), Version(p.fetched[i].id, p.fetched[i].updatedAt);
    assert Listed(q.fetched, v.id);
    var j :| 0 <= j < |q.fetched| && q.fetched[j].id == v.id;
    UnlimitedDelivers(r', q, j);
    Repeats(r'.log, VersionsOf(Outcome(r', q).items), v);
  }

  lemma Repeats(a: seq<Version>, b: seq<Version>, v: Version)
    requires v in a && v in b
    ensures !NoDup(a + b)
  {
    var i :| 0 <= i < |a| && a[i] == v;
    var j :| 0 <= j < |b| && b[j] == v;
    assert (a + b)[i] == (a + b)[|a| + j];
  }
}
