/** One poll of a declarative trigger: packages/connector-sdk/src/dedupe.ts.
  *
  * Instants and item ids are totally ordered keys (`int`); an ISO timestamp orders as its instant.
  */
module Dedupe {
  import opened Wrappers

  type Instant = int
  type Id = int

  /** An item's `updatedAt`: missing, unreadable, or an instant. */
  datatype Stamp = Unstamped | Unreadable | At(instant: Instant)

  /** What `fetch` lists. `complete` says the item has the id and the title normalization insists on. */
  datatype Item = Item(id: Id, updatedAt: Stamp, complete: bool)

  datatype Keyed = Keyed(item: Item, at: Instant, id: Id, pinned: bool)

  /** What the cursor string decodes to, or why it does not. */
  datatype Cursor =
    | Blank
    | NotJson
    | NotOurs
    | AtInstant(t: Instant, ids: seq<Id>)
    | AfterItem(id: Id)

  datatype State = State(t: Instant, ids: seq<Id>)

  datatype PollError =
    | CursorNotJson
    | CursorForeign
    | UnreadableTimestamp
    | IncompleteItem
    | DuplicateId
    | NoNextCursor
    | DidNotAdvance
    | TooManyPages

  datatype PollOutcome = PollOutcome(items: seq<Item>, nextCursor: Option<Cursor>, hasMore: bool)

  const MAX_BOUNDARY_IDS: nat := 500

  // ---- keys ----

  function DecodeTimestamp(cursor: Option<Cursor>): Result<Option<State>, PollError> {
    match cursor
    case None => Ok(None)
    case Some(Blank) => Ok(None)
    case Some(NotJson) => Err(CursorNotJson)
    case Some(AtInstant(t, ids)) => Ok(Some(State(t, ids)))
    case Some(_) => Err(CursorForeign)
  }

  function DecodeLastItem(cursor: Option<Cursor>): Result<Option<Id>, PollError> {
    match cursor
    case None => Ok(None)
    case Some(Blank) => Ok(None)
    case Some(NotJson) => Err(CursorNotJson)
    case Some(AfterItem(id)) => Ok(Some(id))
    case Some(_) => Err(CursorForeign)
  }

  predicate Readable(items: seq<Item>) {
    forall i :: 0 <= i < |items| ==> !items[i].updatedAt.Unreadable?
  }

  ghost predicate DistinctIds(items: seq<Item>) {
    forall i, j :: 0 <= i < j < |items| ==> items[i].id != items[j].id
  }

  /** The key an item is placed by: an unstamped item borrows the boundary, or poll time without one. */
  function KeyOf(item: Item, boundary: Option<Instant>, polledAt: Instant): Keyed
    requires !item.updatedAt.Unreadable?
  {
    if item.updatedAt.Unstamped? && boundary.Some? then Keyed(item, boundary.value, item.id, true)
    else Keyed(item, if item.updatedAt.At? then item.updatedAt.instant else polledAt, item.id, false)
  }

  predicate IsNew(k: Keyed, boundary: Option<Instant>, seen: seq<Id>) {
    boundary.None? || k.at > boundary.value || (k.at == boundary.value && k.id !in seen)
  }

  function FreshOf(fetched: seq<Item>, boundary: Option<Instant>, seen: seq<Id>, polledAt: Instant): seq<Keyed>
    requires Readable(fetched)
  {
    if fetched == [] then []
    else
      var n := |fetched| - 1;
      var k := KeyOf(fetched[n], boundary, polledAt);
      if IsNew(k, boundary, seen) then FreshOf(fetched[..n], boundary, seen, polledAt) + [k]
      else FreshOf(fetched[..n], boundary, seen, polledAt)
  }

  function PinnedSeen(fetched: seq<Item>, boundary: Option<Instant>, seen: seq<Id>, polledAt: Instant): seq<Id>
    requires Readable(fetched)
  {
    if fetched == [] then []
    else
      var n := |fetched| - 1;
      var k := KeyOf(fetched[n], boundary, polledAt);
      if k.pinned && !IsNew(k, boundary, seen) then PinnedSeen(fetched[..n], boundary, seen, polledAt) + [k.id]
      else PinnedSeen(fetched[..n], boundary, seen, polledAt)
  }

  // ---- the order pages are delivered in ----

  predicate Le(a: Keyed, b: Keyed) {
    a.at < b.at || (a.at == b.at && a.id <= b.id)
  }

  ghost predicate Ordered(s: seq<Keyed>) {
    forall i, j :: 0 <= i < j < |s| ==> Le(s[i], s[j])
  }

  ghost predicate DistinctKeys(s: seq<Keyed>) {
    forall i, j :: 0 <= i < j < |s| ==> s[i].id != s[j].id
  }

  function Insert(k: Keyed, s: seq<Keyed>): seq<Keyed> {
    if s == [] || (Le(k, s[0]) && !Le(s[0], k)) then [k] + s else [s[0]] + Insert(k, s[1..])
  }

  /** The order `Array.prototype.sort` leaves: ascending by instant then id, ties as they came. */
  function Sort(s: seq<Keyed>): seq<Keyed> {
    if s == [] then [] else Insert(s[|s| - 1], Sort(s[..|s| - 1]))
  }

  lemma {:induction false} InsertKeeps(k: Keyed, s: seq<Keyed>)
    requires Ordered(s)
    ensures Ordered(Insert(k, s))
    ensures multiset(Insert(k, s)) == multiset(s) + multiset{k}
  {
    if s == [] || (Le(k, s[0]) && !Le(s[0], k)) {
    } else {
      InsertKeeps(k, s[1..]);
      var r := Insert(k, s[1..]);
      assert s == [s[0]] + s[1..];
      forall j | 0 <= j < |r| ensures Le(s[0], r[j]) {
        assert r[j] in multiset(r);
        assert r[j] == k || r[j] in s[1..];
      }
    }
  }

  lemma {:induction false} SortSorts(s: seq<Keyed>)
    ensures Ordered(Sort(s))
    ensures multiset(Sort(s)) == multiset(s)
  {
    if s != [] {
      var n := |s| - 1;
      SortSorts(s[..n]);
      InsertKeeps(s[n], Sort(s[..n]));
      assert s == s[..n] + [s[n]];
    }
  }

  /** Distinct ids leave one order only. */
  lemma {:induction false} OneOrder(a: seq<Keyed>, b: seq<Keyed>)
    requires Ordered(a) && Ordered(b) && DistinctKeys(a) && DistinctKeys(b)
    requires forall k :: k in a <==> k in b
    ensures a == b
  {
    if a == [] {
      assert forall i :: 0 <= i < |b| ==> b[i] in b;
    } else {
      assert a[0] in b;
      assert b[0] in a;
      assert Le(a[0], b[0]) && Le(b[0], a[0]);
      assert a[0] == b[0] by {
        var i :| 0 <= i < |b| && b[i] == a[0];
        if i > 0 { assert b[0].id != b[i].id; }
      }
      forall k ensures k in a[1..] <==> k in b[1..] {
        if k in a[1..] {
          var i :| 1 <= i < |a| && a[i] == k;
          assert a[0].id != a[i].id;
          assert k in b && k != b[0];
        }
        if k in b[1..] {
          var i :| 1 <= i < |b| && b[i] == k;
          assert b[0].id != b[i].id;
          assert k in a && k != a[0];
        }
      }
      OneOrder(a[1..], b[1..]);
    }
  }

  // ---- pages and cursors ----

  function Chronological(fetched: seq<Item>, boundary: Option<Instant>, seen: seq<Id>, polledAt: Instant): seq<Keyed>
    requires Readable(fetched)
  {
    Sort(FreshOf(fetched, boundary, seen, polledAt))
  }

  function Delivered(chronological: seq<Keyed>, limit: Option<nat>): seq<Keyed> {
    if limit.Some? && limit.value < |chronological| then chronological[..limit.value] else chronological
  }

  function ItemsOf(s: seq<Keyed>): seq<Item> {
    seq(|s|, i requires 0 <= i < |s| => s[i].item)
  }

  /** `page`: `advanced` is the cursor the delivered entries earn, read only when there are any. */
  function Page(
      chronological: seq<Keyed>, limit: Option<nat>, cursor: Option<Cursor>, hadCursor: bool, advanced: Cursor)
      : PollOutcome
  {
    var delivered := Delivered(chronological, limit);
    if delivered == [] then PollOutcome([], cursor, false)
    else PollOutcome(ItemsOf(delivered), Some(advanced), |chronological| > |delivered| && hadCursor)
  }

  /** A `Set` spread into a list: first occurrences, in order. */
  function Distinct(ids: seq<Id>): (r: seq<Id>)
    ensures forall id :: id in r <==> id in ids
    ensures forall i, j :: 0 <= i < j < |r| ==> r[i] != r[j]
  {
    if ids == [] then []
    else
      var n := |ids| - 1;
      var r := Distinct(ids[..n]);
      assert ids == ids[..n] + [ids[n]];
      if ids[n] in ids[..n] then r else r + [ids[n]]
  }

  /** Ids sharing the last instant, newest first. */
  function NewestIds(delivered: seq<Keyed>, newest: Instant): seq<Id> {
    if delivered == [] || delivered[|delivered| - 1].at != newest then []
    else [delivered[|delivered| - 1].id] + NewestIds(delivered[..|delivered| - 1], newest)
  }

  function PinnedIds(delivered: seq<Keyed>): seq<Id> {
    if delivered == [] then []
    else
      var n := |delivered| - 1;
      if delivered[n].pinned then PinnedIds(delivered[..n]) + [delivered[n].id] else PinnedIds(delivered[..n])
  }

  function Carried(boundary: Option<Instant>, seen: seq<Id>, pinnedSeen: seq<Id>, delivered: seq<Keyed>): seq<Id>
    requires delivered != []
  {
    var newest := delivered[|delivered| - 1].at;
    if boundary == Some(newest) then Distinct(seen) + NewestIds(delivered, newest)
    else pinnedSeen + PinnedIds(delivered) + NewestIds(delivered, newest)
  }

  function LastIds(ids: seq<Id>): (r: seq<Id>)
    ensures forall id :: id in r ==> id in ids
  {
    if |ids| > MAX_BOUNDARY_IDS then ids[|ids| - MAX_BOUNDARY_IDS..] else ids
  }

  function NextState(boundary: Option<Instant>, seen: seq<Id>, pinnedSeen: seq<Id>, delivered: seq<Keyed>): State
    requires delivered != []
  {
    State(delivered[|delivered| - 1].at, LastIds(Carried(boundary, seen, pinnedSeen, delivered)))
  }

  function BoundaryOf(state: Option<State>, since: Option<Instant>): Option<Instant> {
    if state.Some? then Some(state.value.t) else since
  }

  function SeenOf(state: Option<State>): seq<Id> {
    if state.Some? then state.value.ids else []
  }

  /** What one timestamp poll answers. */
  function TimestampOutcome(
      fetched: seq<Item>, state: Option<State>, since: Option<Instant>, cursor: Option<Cursor>, limit: Option<nat>,
      polledAt: Instant): Result<PollOutcome, PollError>
  {
    if !Readable(fetched) then Err(UnreadableTimestamp)
    else
      var boundary := BoundaryOf(state, since);
      var seen := SeenOf(state);
      var chronological := Chronological(fetched, boundary, seen, polledAt);
      var delivered := Delivered(chronological, limit);
      var advanced :=
        if delivered == [] then Blank
        else
          var s := NextState(boundary, seen, PinnedSeen(fetched, boundary, seen, polledAt), delivered);
          AtInstant(s.t, s.ids);
      Ok(Page(chronological, limit, cursor, state.Some?, advanced))
  }

  /** The backward walk that gathers the ids at the newest instant. */
  method CollectNewest(delivered: seq<Keyed>, newest: Instant) returns (atNewest: seq<Id>)
    ensures atNewest == NewestIds(delivered, newest)
  {
    atNewest := [];
    var i := |delivered| - 1;
    assert delivered[..|delivered|] == delivered;
    while i >= 0 && delivered[i].at == newest
      invariant -1 <= i < |delivered|
      invariant NewestIds(delivered, newest) == atNewest + NewestIds(delivered[..i + 1], newest)
    {
      assert delivered[..i + 1][..i] == delivered[..i];
      atNewest := atNewest + [delivered[i].id];
      i := i - 1;
    }
  }

  /** The walk over what was fetched: new entries, and pinned items already delivered. */
  method Sift(
      fetched: seq<Item>, boundary: Option<Instant>, seen: seq<Id>, polledAt: Instant)
      returns (readable: bool, arrived: seq<Keyed>, pinnedAlreadySeen: seq<Id>)
    ensures readable == Readable(fetched)
    ensures readable ==> arrived == FreshOf(fetched, boundary, seen, polledAt)
    ensures readable ==> pinnedAlreadySeen == PinnedSeen(fetched, boundary, seen, polledAt)
  {
    arrived, pinnedAlreadySeen := [], [];
    for i := 0 to |fetched|
      invariant Readable(fetched[..i])
      invariant arrived == FreshOf(fetched[..i], boundary, seen, polledAt)
      invariant pinnedAlreadySeen == PinnedSeen(fetched[..i], boundary, seen, polledAt)
    {
      if fetched[i].updatedAt.Unreadable? {
        return false, arrived, pinnedAlreadySeen;
      }
      assert fetched[..i + 1][..i] == fetched[..i];
      var k := KeyOf(fetched[i], boundary, polledAt);
      if IsNew(k, boundary, seen) {
        arrived := arrived + [k];
      } else if k.pinned {
        pinnedAlreadySeen := pinnedAlreadySeen + [k.id];
      }
    }
    assert fetched[..|fetched|] == fetched;
    readable := true;
  }

  method TimestampPoll(
      fetched: seq<Item>, state: Option<State>, since: Option<Instant>, cursor: Option<Cursor>, limit: Option<nat>,
      polledAt: Instant) returns (r: Result<PollOutcome, PollError>)
    ensures r == TimestampOutcome(fetched, state, since, cursor, limit, polledAt)
  {
    var boundary := BoundaryOf(state, since);
    var seen := SeenOf(state);
    var readable, arrived, pinnedAlreadySeen := Sift(fetched, boundary, seen, polledAt);
    if !readable {
      return Err(UnreadableTimestamp);
    }
    arrived := Sort(arrived);
    assert arrived == Chronological(fetched, boundary, seen, polledAt);
    var delivered := Delivered(arrived, limit);
    var advanced := Blank;
    if delivered != [] {
      var newest := delivered[|delivered| - 1].at;
      var atNewest := CollectNewest(delivered, newest);
      var carried :=
        if boundary == Some(newest) then Distinct(seen) + atNewest
        else pinnedAlreadySeen + PinnedIds(delivered) + atNewest;
      assert carried == Carried(boundary, seen, pinnedAlreadySeen, delivered);
      advanced := AtInstant(newest, LastIds(carried));
    }
    r := Ok(Page(arrived, limit, cursor, state.Some?, advanced));
  }
}
