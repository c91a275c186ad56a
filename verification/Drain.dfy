/** Draining a backlog page by page: `runPoll`, `drainPoll` (packages/connector-sdk/src/runtime.ts),
  * `lastItemPoll` (dedupe.ts) and `normalizeItems` (normalize.ts).
  */
module Drain {
  import opened Wrappers
  import opened Dedupe

  datatype Strategy = Timestamp | LastItem

  const MAX_POLL_PAGES: nat := 1000

  // ---- the `lastItem` strategy ----

  function Keys(fetched: seq<Item>, polledAt: Instant): seq<Keyed>
    requires Readable(fetched)
  {
    seq(|fetched|, i requires 0 <= i < |fetched| => KeyOf(fetched[i], None, polledAt))
  }

  /** Where `id` first stands, or the length. */
  function IndexOf(items: seq<Item>, id: Id): (r: nat)
    ensures r <= |items|
    ensures r < |items| ==> items[r].id == id
    ensures forall i :: 0 <= i < r ==> items[i].id != id
  {
    if items == [] || items[0].id == id then 0 else 1 + IndexOf(items[1..], id)
  }

  function Reverse<T>(s: seq<T>): (r: seq<T>)
    ensures |r| == |s|
    ensures forall i :: 0 <= i < |s| ==> r[i] == s[|s| - 1 - i]
  {
    seq(|s|, i requires 0 <= i < |s| => s[|s| - 1 - i])
  }

  /** Everything the feed lists above the remembered item, oldest first; all of it when that item is not listed. */
  function AboveLast(fetched: seq<Item>, state: Option<Id>, polledAt: Instant): seq<Keyed>
    requires Readable(fetched)
  {
    var stopAt := if state.Some? then IndexOf(fetched, state.value) else |fetched|;
    Reverse(Keys(fetched, polledAt)[..stopAt])
  }

  function LastItemOutcome(
      fetched: seq<Item>, state: Option<Id>, cursor: Option<Cursor>, limit: Option<nat>, polledAt: Instant)
      : Result<PollOutcome, PollError>
  {
    if !Readable(fetched) then Err(UnreadableTimestamp)
    else
      var chronological := AboveLast(fetched, state, polledAt);
      var delivered := Delivered(chronological, limit);
      var advanced := if delivered == [] then Blank else AfterItem(delivered[|delivered| - 1].id);
      Ok(Page(chronological, limit, cursor, state.Some?, advanced))
  }

  // ---- one page, normalized ----

  ghost predicate AllComplete(items: seq<Item>) {
    forall i :: 0 <= i < |items| ==> items[i].complete
  }

  predicate HasId(items: seq<Item>, id: Id) {
    IndexOf(items, id) < |items|
  }

  /** The first thing wrong with a page, as normalization walks it. */
  function PageError(items: seq<Item>): (r: Option<PollError>)
    ensures r.None? <==> AllComplete(items) && DistinctIds(items)
  {
    if items == [] then None
    else
      var n := |items| - 1;
      var before := PageError(items[..n]);
      if before.Some? then before
      else if !items[n].complete then Some(IncompleteItem)
      else if HasId(items[..n], items[n].id) then Some(DuplicateId)
      else None
  }

  method NormalizeItems(items: seq<Item>) returns (error: Option<PollError>)
    ensures error == PageError(items)
  {
    var seen: set<Id> := {};
    for n := 0 to |items|
      invariant PageError(items[..n]).None?
      invariant forall id :: id in seen <==> HasId(items[..n], id)
    {
      assert items[..n + 1][..n] == items[..n];
      assert items[..n + 1][n] == items[n];
      if !items[n].complete || items[n].id in seen {
        error := if !items[n].complete then Some(IncompleteItem) else Some(DuplicateId);
        ErrorStands(items, n + 1);
        return;
      }
      seen := seen + {items[n].id};
      forall id ensures id in seen <==> HasId(items[..n + 1], id) {
        if HasId(items[..n], id) {
          assert items[..n + 1][IndexOf(items[..n], id)].id == id;
        }
        if HasId(items[..n + 1], id) && IndexOf(items[..n + 1], id) < n {
          assert items[..n][IndexOf(items[..n + 1], id)].id == id;
        }
      }
    }
    assert items[..|items|] == items;
    error := None;
  }

  lemma {:induction false} ErrorStands(items: seq<Item>, n: nat)
    requires n <= |items| && PageError(items[..n]).Some?
    ensures PageError(items) == PageError(items[..n])
  {
    if n < |items| {
      assert items[..|items| - 1][..n] == items[..n];
      ErrorStands(items[..|items| - 1], n);
    } else {
      assert items[..n] == items;
    }
  }

  /** `runPoll`'s checks on what a trigger answered. */
  function Checked(o: PollOutcome): Result<PollOutcome, PollError> {
    if o.hasMore && (o.nextCursor.None? || o.nextCursor.value.Blank?) then Err(NoNextCursor)
    else if PageError(o.items).Some? then Err(PageError(o.items).value)
    else Ok(o)
  }

  function CheckedPoll(o: Result<PollOutcome, PollError>): Result<PollOutcome, PollError> {
    match o
    case Err(e) => Err(e)
    case Ok(outcome) => Checked(outcome)
  }

  /** `runPoll` on a declarative trigger. */
  function RunPoll(
      strategy: Strategy, fetched: seq<Item>, cursor: Option<Cursor>, since: Option<Instant>, limit: Option<nat>,
      polledAt: Instant): Result<PollOutcome, PollError>
  {
    match strategy
    case Timestamp =>
      (match DecodeTimestamp(cursor)
       case Err(e) => Err(e)
       case Ok(state) => CheckedPoll(TimestampOutcome(fetched, state, since, cursor, limit, polledAt)))
    case LastItem =>
      match DecodeLastItem(cursor)
      case Err(e) => Err(e)
      case Ok(state) => CheckedPoll(LastItemOutcome(fetched, state, cursor, limit, polledAt))
  }

  // ---- the drain ----

  /** A trigger as `drainPoll` sees it: what `runPoll` answers on a page, given the page's cursor. */
  type Trigger = (nat, Option<Cursor>) -> Result<PollOutcome, PollError>

  /** The items drained, or the error, and how many pages were asked for. */
  datatype Drained = Drained(result: Result<seq<Item>, PollError>, pages: nat)

  function DrainFrom(poll: Trigger, cursor: Option<Cursor>, page: nat, collected: seq<Item>): Drained
    decreases MAX_POLL_PAGES - page
  {
    if page >= MAX_POLL_PAGES then Drained(Err(TooManyPages), page)
    else
      match poll(page, cursor)
      case Err(e) => Drained(Err(e), page + 1)
      case Ok(o) =>
        if !o.hasMore then Drained(Ok(collected + o.items), page + 1)
        else if o.nextCursor == cursor then Drained(Err(DidNotAdvance), page + 1)
        else DrainFrom(poll, o.nextCursor, page + 1, collected + o.items)
  }

  method DrainPoll(poll: Trigger, start: Option<Cursor>) returns (r: Drained)
    ensures r == DrainFrom(poll, start, 0, [])
  {
    var collected: seq<Item> := [];
    var cursor := start;
    for page := 0 to MAX_POLL_PAGES
      invariant DrainFrom(poll, start, 0, []) == DrainFrom(poll, cursor, page, collected)
    {
      var outcome := poll(page, cursor);
      if outcome.Err? {
        return Drained(Err(outcome.error), page + 1);
      }
      var result := outcome.value;
      collected := collected + result.items;
      if !result.hasMore {
        return Drained(Ok(collected), page + 1);
      }
      if result.nextCursor == cursor {
        return Drained(Err(DidNotAdvance), page + 1);
      }
      cursor := result.nextCursor;
    }
    r := Drained(Err(TooManyPages), MAX_POLL_PAGES);
  }

  // ---- draining any trigger that pages through a backlog ----

  /** How many pages a backlog of `n` takes. */
  function PagesFor(n: nat, limit: Option<nat>): nat
    requires limit.Some? ==> limit.value >= 1
  {
    if limit.None? || n <= limit.value then 1 else 1 + PagesFor(n - limit.value, limit)
  }

  /** The pages of a backlog are its length over the limit, rounded up; an empty one still takes a page. */
  lemma {:induction false} PagesForRoundsUp(n: nat, limit: nat)
    requires limit >= 1
    ensures n <= PagesFor(n, Some(limit)) * limit
    ensures n > 0 ==> (PagesFor(n, Some(limit)) - 1) * limit < n
  {
    if n > limit {
      PagesForRoundsUp(n - limit, limit);
      var q := PagesFor(n - limit, Some(limit));
      assert (q + 1) * limit == q * limit + limit;
      assert (q - 1) * limit + limit == q * limit;
    }
  }

  function FirstOf(items: seq<Item>, limit: Option<nat>): seq<Item> {
    if limit.Some? && limit.value < |items| then items[..limit.value] else items
  }

  /** One page takes the first of what its cursor leaves, and moves the cursor to the rest while there is more. */
  ghost predicate PagesOff(
      poll: Trigger, left: Option<Cursor> -> seq<Item>, within: Option<Cursor> -> bool, limit: Option<nat>, page: nat,
      cursor: Option<Cursor>)
  {
    var all := left(cursor);
    poll(page, cursor).Ok? &&
    var o := poll(page, cursor).value;
    && o.items == FirstOf(all, limit)
    && (o.hasMore <==> limit.Some? && limit.value < |all|)
    && (o.hasMore ==> o.nextCursor != cursor && within(o.nextCursor) && left(o.nextCursor) == all[limit.value..])
  }

  /** Then a drain returns all that is left, each item once and in order, in exactly the pages it takes;
    * only a backlog too long for the page bound fails. */
  lemma {:induction false} DrainTakesAll(
      poll: Trigger, left: Option<Cursor> -> seq<Item>, within: Option<Cursor> -> bool, limit: Option<nat>,
      cursor: Option<Cursor>, page: nat, collected: seq<Item>)
    requires limit.Some? ==> limit.value >= 1
    requires forall n: nat, c :: within(c) ==> PagesOff(poll, left, within, limit, n, c)
    requires within(cursor) && page < MAX_POLL_PAGES
    ensures
      var pages := PagesFor(|left(cursor)|, limit);
      DrainFrom(poll, cursor, page, collected)
      == if page + pages <= MAX_POLL_PAGES then Drained(Ok(collected + left(cursor)), page + pages)
         else Drained(Err(TooManyPages), MAX_POLL_PAGES)
    decreases MAX_POLL_PAGES - page
  {
    var all := left(cursor);
    assert PagesOff(poll, left, within, limit, page, cursor);
    var o := poll(page, cursor).value;
    if o.hasMore {
      assert (collected + o.items) + left(o.nextCursor) == collected + all;
      if page + 1 < MAX_POLL_PAGES {
        DrainTakesAll(poll, left, within, limit, o.nextCursor, page + 1, collected + o.items);
      }
    }
  }

  // ---- draining a fixed feed: `lastItem` ----

  function TriggerOf(
      strategy: Strategy, source: (nat, Option<Cursor>) -> seq<Item>, clock: nat -> Instant, since: Option<Instant>,
      limit: Option<nat>): Trigger
  {
    (page: nat, cursor: Option<Cursor>) => RunPoll(strategy, source(page, cursor), cursor, since, limit, clock(page))
  }

  ghost predicate Catalog(catalog: seq<Item>) {
    Readable(catalog) && DistinctIds(catalog) && AllComplete(catalog)
  }

  /** A newest-first feed answered from its start, at least through the remembered item, or whole. */
  ghost predicate Feeds(feed: seq<Item>, id: Id, fetched: seq<Item>) {
    fetched <= feed && (fetched == feed || IndexOf(feed, id) < |fetched|)
  }

  ghost predicate ServesFeed(feed: seq<Item>, source: (nat, Option<Cursor>) -> seq<Item>) {
    forall page: nat, id: Id :: Feeds(feed, id, source(page, Some(AfterItem(id))))
  }

  lemma {:induction false} IndexOfUnique(items: seq<Item>, i: nat)
    requires DistinctIds(items) && i < |items|
    ensures IndexOf(items, items[i].id) == i
  {
    assert IndexOf(items, items[i].id) <= i;
  }

  lemma IndexOfPrefix(feed: seq<Item>, id: Id, fetched: seq<Item>)
    requires Feeds(feed, id, fetched)
    ensures IndexOf(fetched, id) == IndexOf(feed, id)
  {
    var i, j := IndexOf(feed, id), IndexOf(fetched, id);
    if fetched != feed {
      assert fetched[i].id == id;
      assert j <= i;
      assert feed[j].id == id;
    }
  }

  ghost function LastItemLeft(feed: seq<Item>): Option<Cursor> -> seq<Item> {
    (c: Option<Cursor>) => if c.Some? && c.value.AfterItem? then Reverse(feed[..IndexOf(feed, c.value.id)]) else []
  }

  lemma AboveLastOfFeed(feed: seq<Item>, id: Id, fetched: seq<Item>, p: Instant)
    requires Catalog(feed) && Feeds(feed, id, fetched)
    ensures Readable(fetched)
    ensures ItemsOf(AboveLast(fetched, Some(id), p)) == Reverse(feed[..IndexOf(feed, id)])
    ensures forall k :: k in AboveLast(fetched, Some(id), p) ==> k.id == k.item.id
  {
    assert forall i :: 0 <= i < |fetched| ==> fetched[i] == feed[i];
    IndexOfPrefix(feed, id, fetched);
  }

  /** `page` in terms of the backlog's items. */
  lemma PageTakesFirst(all: seq<Keyed>, limit: Option<nat>, cursor: Option<Cursor>, advanced: Cursor)
    requires limit.Some? ==> limit.value >= 1
    ensures
      var o := Page(all, limit, cursor, true, advanced);
      && o.items == FirstOf(ItemsOf(all), limit)
      && (o.hasMore <==> limit.Some? && limit.value < |all|)
      && (o.hasMore ==> o.nextCursor == Some(advanced))
  {
    assert ItemsOf(Delivered(all, limit)) == FirstOf(ItemsOf(all), limit);
  }

  ghost function LastItemWithin(): Option<Cursor> -> bool {
    (c: Option<Cursor>) => c.Some? && c.value.AfterItem?
  }

  /** What one `lastItem` poll answers from a cursor. */
  lemma LastItemPageOutcome(feed: seq<Item>, id: Id, fetched: seq<Item>, limit: Option<nat>, p: Instant)
    requires Catalog(feed) && Feeds(feed, id, fetched) && (limit.Some? ==> limit.value >= 1)
    ensures
      var cursor := Some(AfterItem(id));
      var all := Reverse(feed[..IndexOf(feed, id)]);
      var o := LastItemOutcome(fetched, Some(id), cursor, limit, p);
      && o.Ok? && o.value.items == FirstOf(all, limit)
      && (o.value.hasMore <==> limit.Some? && limit.value < |all|)
      && (o.value.hasMore ==> o.value.nextCursor == Some(AfterItem(all[limit.value - 1].id)))
  {
    hide AboveLast, IndexOf, Reverse, Catalog, Feeds;
    AboveLastOfFeed(feed, id, fetched, p);
    var chronological := AboveLast(fetched, Some(id), p);
    var delivered := Delivered(chronological, limit);
    PageTakesFirst(chronological, limit, Some(AfterItem(id)),
                   if delivered == [] then Blank else AfterItem(delivered[|delivered| - 1].id));
    if limit.Some? && limit.value < |chronological| {
      var last := limit.value - 1;
      assert delivered[last] == chronological[last];
      assert chronological[last] in chronological;
      assert ItemsOf(chronological)[last] == chronological[last].item;
    }
  }

  lemma CheckedPasses(o: Result<PollOutcome, PollError>)
    requires o.Ok? && PageError(o.value.items).None?
    requires o.value.hasMore ==> o.value.nextCursor.Some? && !o.value.nextCursor.value.Blank?
    ensures CheckedPoll(o) == o
  {
  }

  lemma LastItemPasses(
      feed: seq<Item>, id: Id, fetched: seq<Item>, limit: Option<nat>, p: Instant, o: Result<PollOutcome, PollError>)
    requires Catalog(feed) && Feeds(feed, id, fetched) && (limit.Some? ==> limit.value >= 1)
    requires o == LastItemOutcome(fetched, Some(id), Some(AfterItem(id)), limit, p)
    ensures CheckedPoll(o) == o
  {
    LastItemPageOutcome(feed, id, fetched, limit, p);
    FeedPage(feed, IndexOf(feed, id), limit);
    CheckedPasses(o);
  }

  lemma RunPollIsChecked(
      id: Id, fetched: seq<Item>, since: Option<Instant>, limit: Option<nat>, p: Instant,
      o: Result<PollOutcome, PollError>)
    requires o == LastItemOutcome(fetched, Some(id), Some(AfterItem(id)), limit, p)
    ensures RunPoll(LastItem, fetched, Some(AfterItem(id)), since, limit, p) == CheckedPoll(o)
  {
    assert DecodeLastItem(Some(AfterItem(id))) == Ok(Some(id));
  }

  lemma FeedPage(feed: seq<Item>, n: nat, limit: Option<nat>)
    requires Catalog(feed) && n <= |feed|
    ensures PageError(FirstOf(Reverse(feed[..n]), limit)).None?
  {
    var page := FirstOf(Reverse(feed[..n]), limit);
    assert AllComplete(page) && DistinctIds(page);
  }

  /** What a page leaves of the feed. */
  lemma LastItemRest(feed: seq<Item>, id: Id, m: nat)
    requires Catalog(feed) && 1 <= m <= IndexOf(feed, id)
    ensures
      var all := Reverse(feed[..IndexOf(feed, id)]);
      && all[m - 1].id != id
      && Reverse(feed[..IndexOf(feed, all[m - 1].id)]) == all[m..]
  {
    var stop := IndexOf(feed, id);
    assert Reverse(feed[..stop])[m - 1] == feed[stop - m];
    IndexOfUnique(feed, stop - m);
  }

  lemma LastItemTriggerPagesOff(
      feed: seq<Item>, source: (nat, Option<Cursor>) -> seq<Item>, clock: nat -> Instant, since: Option<Instant>,
      limit: Option<nat>, n: nat, id: Id)
    requires Catalog(feed) && ServesFeed(feed, source) && (limit.Some? ==> limit.value >= 1)
    ensures PagesOff(TriggerOf(LastItem, source, clock, since, limit), LastItemLeft(feed),
                     LastItemWithin(), limit, n, Some(AfterItem(id)))
  {
    var fetched := source(n, Some(AfterItem(id)));
    assert Feeds(feed, id, fetched);
    var o := LastItemOutcome(fetched, Some(id), Some(AfterItem(id)), limit, clock(n));
    RunPollIsChecked(id, fetched, since, limit, clock(n), o);
    LastItemPasses(feed, id, fetched, limit, clock(n), o);
    LastItemPageOutcome(feed, id, fetched, limit, clock(n));
    if limit.Some? && limit.value < IndexOf(feed, id) {
      LastItemRest(feed, id, limit.value);
    }
  }

  /** From any remembered item, a drain of a fixed feed under `lastItem` returns everything above it once, oldest first;
    * a remembered item the feed no longer lists brings the whole feed. */
  lemma LastItemDrainIsFeed(
      feed: seq<Item>, id: Id, source: (nat, Option<Cursor>) -> seq<Item>, clock: nat -> Instant,
      since: Option<Instant>, limit: Option<nat>)
    requires Catalog(feed) && ServesFeed(feed, source) && (limit.Some? ==> limit.value >= 1)
    ensures
      var all := Reverse(feed[..IndexOf(feed, id)]);
      var pages := PagesFor(|all|, limit);
      DrainFrom(TriggerOf(LastItem, source, clock, since, limit), Some(AfterItem(id)), 0, [])
      == if pages <= MAX_POLL_PAGES then Drained(Ok(all), pages) else Drained(Err(TooManyPages), MAX_POLL_PAGES)
  {
    var poll := TriggerOf(LastItem, source, clock, since, limit);
    var left := LastItemLeft(feed);
    var within := LastItemWithin();
    forall n: nat, c | within(c) ensures PagesOff(poll, left, within, limit, n, c) {
      LastItemTriggerPagesOff(feed, source, clock, since, limit, n, c.value.id);
    }
    DrainTakesAll(poll, left, within, limit, Some(AfterItem(id)), 0, []);
    assert [] + left(Some(AfterItem(id))) == left(Some(AfterItem(id)));
  }

  /** Without a cursor a poll never asks to be followed. */
  lemma FirstPollHasNoMore(
      strategy: Strategy, fetched: seq<Item>, cursor: Option<Cursor>, since: Option<Instant>, limit: Option<nat>,
      p: Instant)
    requires cursor.None? || cursor.value.Blank?
    ensures
      var first := RunPoll(strategy, fetched, cursor, since, limit, p);
      first.Ok? ==> !first.value.hasMore
  {
  }

  /** So a drain without a cursor stops after its first page: it never pulls the whole history. */
  lemma FirstDrainIsOnePage(
      strategy: Strategy, source: (nat, Option<Cursor>) -> seq<Item>, clock: nat -> Instant, since: Option<Instant>,
      limit: Option<nat>, start: Option<Cursor>)
    requires start.None? || start.value.Blank?
    ensures
      var poll := TriggerOf(strategy, source, clock, since, limit);
      DrainFrom(poll, start, 0, [])
      == Drained(if poll(0, start).Err? then Err(poll(0, start).error) else Ok(poll(0, start).value.items), 1)
  {
    var poll := TriggerOf(strategy, source, clock, since, limit);
    FirstPollHasNoMore(strategy, source(0, start), start, since, limit, clock(0));
    OnePageDrain(poll, start);
  }

  lemma OnePageDrain(poll: Trigger, start: Option<Cursor>)
    requires poll(0, start).Ok? ==> !poll(0, start).value.hasMore
    ensures DrainFrom(poll, start, 0, [])
         == Drained(if poll(0, start).Err? then Err(poll(0, start).error) else Ok(poll(0, start).value.items), 1)
  {
    assert poll(0, start).Ok? ==> [] + poll(0, start).value.items == poll(0, start).value.items;
  }
}
