/** Polling a fixed source for as long as it asks to be followed (packages/connector-sdk/src/dedupe.ts, runtime.ts):
  * when it comes to an end, and what is never delivered when it does not.
  */
module Starvation {
  import opened Wrappers
  import opened Counting
  import opened Dedupe
  import opened DedupePages
  import opened Drain
  import opened TimestampDrain
  import opened CrowdedInstant

  // ---- polls that follow each other ----

  /** Each of `k` polls in a row succeeds and asks to be followed. */
  ghost predicate AsksOn(poll: Trigger, cursor: Option<Cursor>, page: nat, k: nat)
    decreases k
  {
    k == 0
    || (poll(page, cursor).Ok? && poll(page, cursor).value.hasMore
        && AsksOn(poll, poll(page, cursor).value.nextCursor, page + 1, k - 1))
  }

  /** The cursor after `k` such polls. */
  ghost function CursorAfter(poll: Trigger, cursor: Option<Cursor>, page: nat, k: nat): Option<Cursor>
    requires AsksOn(poll, cursor, page, k)
    decreases k
  {
    if k == 0 then cursor else CursorAfter(poll, poll(page, cursor).value.nextCursor, page + 1, k - 1)
  }

  /** What they deliver. */
  ghost function DeliveredBy(poll: Trigger, cursor: Option<Cursor>, page: nat, k: nat): seq<Item>
    requires AsksOn(poll, cursor, page, k)
    decreases k
  {
    if k == 0 then []
    else
      var o := poll(page, cursor).value;
      o.items + DeliveredBy(poll, o.nextCursor, page + 1, k - 1)
  }

  ghost predicate StaysAt(cursor: Option<Cursor>, t: Instant) {
    cursor.Some? && cursor.value.AtInstant? && cursor.value.t == t && |cursor.value.ids| <= MAX_BOUNDARY_IDS
  }

  /** At a crowded instant every poll asks for another, however many there are; the boundary never moves, and all that
    * is ever delivered are the first 500 and a page more.
    */
  lemma {:induction false} CrowdIsNeverLeft(
      catalog: seq<Item>, s: State, source: (nat, Option<Cursor>) -> seq<Item>, clock: nat -> Instant,
      since: Option<Instant>, limit: nat, page: nat, k: nat)
    requires Catalog(catalog) && ServesCatalog(catalog, source) && limit >= 1
    requires Crowds(catalog, s.t, limit) && |s.ids| <= MAX_BOUNDARY_IDS
    ensures
      var poll := TriggerOf(Timestamp, source, clock, since, Some(limit));
      && AsksOn(poll, CursorOf(s), page, k)
      && StaysAt(CursorAfter(poll, CursorOf(s), page, k), s.t)
      && forall x :: x in DeliveredBy(poll, CursorOf(s), page, k)
          ==> x in ItemsOf(From(catalog, s.t)[..MAX_BOUNDARY_IDS + limit])
    decreases k
  {
    hide Backlog, After, Lists, IsPage, RunPoll, From, Crowds, Catalog, ItemsOf;
    if k > 0 {
      var fetched, p := source(page, CursorOf(s)), clock(page);
      assert Lists(catalog, s.t, fetched);
      CrowdedPage(catalog, s, fetched, since, limit, p);
      var next := After(fetched, Some(s.t), s.ids, p, limit);
      CrowdIsNeverLeft(catalog, next, source, clock, since, limit, page + 1, k - 1);
    }
  }

  /** So what comes later is never delivered, by any number of polls. */
  lemma BeyondIsNeverDelivered(
      catalog: seq<Item>, s: State, source: (nat, Option<Cursor>) -> seq<Item>, clock: nat -> Instant,
      since: Option<Instant>, limit: nat, page: nat, k: nat, j: nat)
    requires Catalog(catalog) && ServesCatalog(catalog, source) && limit >= 1
    requires Crowds(catalog, s.t, limit) && |s.ids| <= MAX_BOUNDARY_IDS
    requires MAX_BOUNDARY_IDS + limit <= j < |From(catalog, s.t)|
    ensures
      var poll := TriggerOf(Timestamp, source, clock, since, Some(limit));
      && AsksOn(poll, CursorOf(s), page, k)
      && From(catalog, s.t)[j].item !in DeliveredBy(poll, CursorOf(s), page, k)
  {
    var whole := From(catalog, s.t);
    var first := whole[..MAX_BOUNDARY_IDS + limit];
    CrowdIsNeverLeft(catalog, s, source, clock, since, limit, page, k);
    ItemsApart(catalog, s.t);
    assert forall i :: 0 <= i < |first| ==> ItemsOf(first)[i] == whole[i].item;
  }

  /** And a drain that comes to a crowded instant runs to its page bound. */
  lemma {:induction false} CrowdedDrainFails(
      catalog: seq<Item>, s: State, source: (nat, Option<Cursor>) -> seq<Item>, clock: nat -> Instant,
      since: Option<Instant>, limit: nat, page: nat, collected: seq<Item>)
    requires Catalog(catalog) && ServesCatalog(catalog, source) && limit >= 1 && page <= MAX_POLL_PAGES
    requires Crowds(catalog, s.t, limit) && |s.ids| <= MAX_BOUNDARY_IDS
    ensures DrainFrom(TriggerOf(Timestamp, source, clock, since, Some(limit)), CursorOf(s), page, collected)
         == Drained(Err(TooManyPages), MAX_POLL_PAGES)
    decreases MAX_POLL_PAGES - page
  {
    hide Backlog, After, Lists, IsPage, RunPoll, From, Crowds, Catalog, ItemsOf;
    if page < MAX_POLL_PAGES {
      var fetched, p := source(page, CursorOf(s)), clock(page);
      assert Lists(catalog, s.t, fetched);
      CrowdedPage(catalog, s, fetched, since, limit, p);
      var o := RunPoll(Timestamp, fetched, CursorOf(s), since, Some(limit), p).value;
      CrowdedDrainFails(catalog, After(fetched, Some(s.t), s.ids, p, limit), source, clock, since, limit, page + 1,
                        collected + o.items);
    }
  }

  // ---- any other instant is left ----

  /** The poll succeeds and does not ask to be followed. */
  ghost predicate Ends(poll: Trigger, cursor: Option<Cursor>, page: nat) {
    poll(page, cursor).Ok? && !poll(page, cursor).value.hasMore
  }

  ghost predicate EndsAfter(poll: Trigger, cursor: Option<Cursor>, page: nat, k: nat) {
    AsksOn(poll, cursor, page, k) && Ends(poll, CursorAfter(poll, cursor, page, k), page + k)
  }

  /** After `k` polls the boundary has moved, to an instant of the catalog. */
  ghost predicate MovesAfter(catalog: seq<Item>, poll: Trigger, s: State, page: nat, k: nat) {
    AsksOn(poll, CursorOf(s), page, k) &&
    var c := CursorAfter(poll, CursorOf(s), page, k);
    && c.Some? && c.value.AtInstant? && c.value.t > s.t && |c.value.ids| <= MAX_BOUNDARY_IDS
    && exists x :: x in catalog && x.updatedAt == At(c.value.t)
  }

  /** One poll of a fixed source: it ends, or its cursor moves on, to an instant of the catalog if to another. */
  lemma OnePoll(
      catalog: seq<Item>, s: State, source: (nat, Option<Cursor>) -> seq<Item>, clock: nat -> Instant,
      since: Option<Instant>, limit: nat, page: nat) returns (next: State)
    requires Catalog(catalog) && ServesCatalog(catalog, source) && limit >= 1
    ensures
      var poll := TriggerOf(Timestamp, source, clock, since, Some(limit));
      if |Backlog(catalog, s)| <= limit then
        Ends(poll, CursorOf(s), page) && poll(page, CursorOf(s)).value.items == ItemsOf(Backlog(catalog, s))
      else
        && poll(page, CursorOf(s)).Ok? && poll(page, CursorOf(s)).value.items == ItemsOf(Backlog(catalog, s))[..limit]
        && (forall k :: k in Backlog(catalog, s)[limit..] ==> k in Backlog(catalog, next))
        && poll(page, CursorOf(s)).value.hasMore
        && poll(page, CursorOf(s)).value.nextCursor == CursorOf(next) && next != s
        && next.t == Backlog(catalog, s)[limit - 1].at && |next.ids| <= MAX_BOUNDARY_IDS
        && (next.t == s.t ==> Settled(catalog, next) >= Least(Settled(catalog, s) + limit, MAX_BOUNDARY_IDS))
        && next.t >= s.t && (next.t > s.t ==> exists x :: x in catalog && x.updatedAt == At(next.t))
  {
    var fetched, p := source(page, CursorOf(s)), clock(page);
    assert Lists(catalog, s.t, fetched);
    TimestampAnswer(catalog, s, fetched, since, Some(limit), p);
    next := s;
    if limit < |Backlog(catalog, s)| {
      next := After(fetched, Some(s.t), s.ids, p, limit);
      NextAt(catalog, s, fetched, p, limit);
      PageLeavesRest(catalog, s, fetched, p, limit);
      BacklogStamps(catalog, s, limit - 1);
      if next.t == s.t {
        StayAddsAPage(catalog, s, fetched, p, limit);
      }
    }
  }

  function Least(a: nat, b: nat): nat {
    if a < b then a else b
  }

  /** What comes after the boundary is stamped. */
  lemma BacklogStamps(catalog: seq<Item>, s: State, i: nat)
    requires Catalog(catalog) && i < |Backlog(catalog, s)|
    ensures
      var k := Backlog(catalog, s)[i];
      k.at >= s.t && (k.at > s.t ==> exists x :: x in catalog && x.updatedAt == At(k.at))
  {
    ChronologicalIsFresh(catalog, Some(s.t), s.ids, s.t);
    var k := Backlog(catalog, s)[i];
    assert k in Backlog(catalog, s);
    var j :| 0 <= j < |catalog| && k == KeyOf(catalog[j], Some(s.t), s.t);
    assert catalog[j] in catalog;
  }

  /** Polls a boundary that already ends its cursor with `g` ids of its own may still take before it moves. */
  function StaysFor(g: nat, limit: nat): nat
    requires limit >= 1
  {
    if g >= MAX_BOUNDARY_IDS then 1 else 1 + PagesFor(MAX_BOUNDARY_IDS - g, Some(limit))
  }

  lemma StaysLess(g: nat, limit: nat, h: nat)
    requires limit >= 1 && g < MAX_BOUNDARY_IDS && h >= Least(g + limit, MAX_BOUNDARY_IDS)
    ensures 1 + StaysFor(h, limit) <= StaysFor(g, limit)
  {
    if h < MAX_BOUNDARY_IDS {
      PagesGrow(MAX_BOUNDARY_IDS - h, MAX_BOUNDARY_IDS - (g + limit), limit);
    }
  }

  lemma {:induction false} PagesGrow(a: nat, b: nat, limit: nat)
    requires limit >= 1 && a <= b
    ensures PagesFor(a, Some(limit)) <= PagesFor(b, Some(limit))
  {
    if a > limit {
      PagesGrow(a - limit, b - limit, limit);
    }
  }

  /** An instant not crowded is left, or the polls end there, within a page more than 500 ids make. */
  lemma {:induction false} UncrowdedIsLeft(
      catalog: seq<Item>, s: State, source: (nat, Option<Cursor>) -> seq<Item>, clock: nat -> Instant,
      since: Option<Instant>, limit: nat, page: nat) returns (k: nat)
    requires Catalog(catalog) && ServesCatalog(catalog, source) && limit >= 1 && !Crowds(catalog, s.t, limit)
    ensures
      var poll := TriggerOf(Timestamp, source, clock, since, Some(limit));
      k <= StaysFor(Settled(catalog, s), limit)
      && (EndsAfter(poll, CursorOf(s), page, k) || (k > 0 && MovesAfter(catalog, poll, s, page, k)))
    decreases MAX_BOUNDARY_IDS - Least(Settled(catalog, s), MAX_BOUNDARY_IDS)
  {
    hide Backlog, Settled, Crowds, RunPoll;
    var next := OnePoll(catalog, s, source, clock, since, limit, page);
    if |Backlog(catalog, s)| <= limit {
      k := 0;
    } else if next.t > s.t {
      k := 1;
    } else {
      if Settled(catalog, s) >= MAX_BOUNDARY_IDS {
        FullStayIsCrowded(catalog, s, limit);
      }
      StaysLess(Settled(catalog, s), limit, Settled(catalog, next));
      var j := UncrowdedIsLeft(catalog, next, source, clock, since, limit, page + 1);
      k := j + 1;
    }
  }

  // ---- when the polls come to an end ----

  /** `j` polls and then `k` more are `j + k` polls. */
  lemma {:induction false} Joined(poll: Trigger, cursor: Option<Cursor>, page: nat, j: nat, k: nat)
    requires AsksOn(poll, cursor, page, j)
    ensures AsksOn(poll, cursor, page, j + k) <==> AsksOn(poll, CursorAfter(poll, cursor, page, j), page + j, k)
    ensures AsksOn(poll, cursor, page, j + k) ==>
      CursorAfter(poll, cursor, page, j + k) == CursorAfter(poll, CursorAfter(poll, cursor, page, j), page + j, k)
    decreases j
  {
    if j > 0 {
      Joined(poll, poll(page, cursor).value.nextCursor, page + 1, j - 1, k);
    }
  }

  lemma {:induction false} AskedBefore(poll: Trigger, cursor: Option<Cursor>, page: nat, j: nat, k: nat)
    requires AsksOn(poll, cursor, page, k) && j <= k
    ensures AsksOn(poll, cursor, page, j)
    decreases j
  {
    if j > 0 {
      AskedBefore(poll, poll(page, cursor).value.nextCursor, page + 1, j - 1, k - 1);
    }
  }

  ghost predicate CrowdedAt(catalog: seq<Item>, cursor: Option<Cursor>, limit: nat)
    requires Readable(catalog) && limit >= 1
  {
    cursor.Some? && cursor.value.AtInstant? && Crowds(catalog, cursor.value.t, limit)
  }

  /** Some number of polls reach a crowded instant. */
  ghost predicate MeetsCrowd(catalog: seq<Item>, poll: Trigger, cursor: Option<Cursor>, limit: nat, page: nat)
    requires Readable(catalog) && limit >= 1
  {
    exists k: nat :: AsksOn(poll, cursor, page, k) && CrowdedAt(catalog, CursorAfter(poll, cursor, page, k), limit)
  }

  lemma MeetsLater(catalog: seq<Item>, poll: Trigger, cursor: Option<Cursor>, limit: nat, page: nat, j: nat)
    requires Readable(catalog) && limit >= 1 && AsksOn(poll, cursor, page, j)
    requires MeetsCrowd(catalog, poll, CursorAfter(poll, cursor, page, j), limit, page + j)
    ensures MeetsCrowd(catalog, poll, cursor, limit, page)
  {
    var c := CursorAfter(poll, cursor, page, j);
    var k: nat :| AsksOn(poll, c, page + j, k) && CrowdedAt(catalog, CursorAfter(poll, c, page + j, k), limit);
    Joined(poll, cursor, page, j, k);
  }

  ghost function Later(catalog: seq<Item>, t: Instant): set<Instant> {
    set x | x in catalog && x.updatedAt.At? && x.updatedAt.instant > t :: x.updatedAt.instant
  }

  lemma FewerLater(catalog: seq<Item>, t: Instant, u: Instant)
    requires t < u && exists x :: x in catalog && x.updatedAt == At(u)
    ensures |Later(catalog, u)| < |Later(catalog, t)|
  {
    var x :| x in catalog && x.updatedAt == At(u);
    assert u in Later(catalog, t) && u !in Later(catalog, u);
    SubsetSize(Later(catalog, u) + {u}, Later(catalog, t));
  }

  lemma {:induction false} EndsUnlessCrowded(
      catalog: seq<Item>, s: State, source: (nat, Option<Cursor>) -> seq<Item>, clock: nat -> Instant,
      since: Option<Instant>, limit: nat, page: nat) returns (k: nat)
    requires Catalog(catalog) && ServesCatalog(catalog, source) && limit >= 1
    requires !MeetsCrowd(catalog, TriggerOf(Timestamp, source, clock, since, Some(limit)), CursorOf(s), limit, page)
    ensures EndsAfter(TriggerOf(Timestamp, source, clock, since, Some(limit)), CursorOf(s), page, k)
    decreases |Later(catalog, s.t)|
  {
    hide Crowds, RunPoll, ServesCatalog;
    var poll := TriggerOf(Timestamp, source, clock, since, Some(limit));
    assert AsksOn(poll, CursorOf(s), page, 0) && CursorAfter(poll, CursorOf(s), page, 0) == CursorOf(s);
    var j := UncrowdedIsLeft(catalog, s, source, clock, since, limit, page);
    if EndsAfter(poll, CursorOf(s), page, j) {
      k := j;
    } else {
      var c := CursorAfter(poll, CursorOf(s), page, j).value;
      var next := State(c.t, c.ids);
      FewerLater(catalog, s.t, next.t);
      if MeetsCrowd(catalog, poll, CursorOf(next), limit, page + j) {
        MeetsLater(catalog, poll, CursorOf(s), limit, page, j);
      }
      var i := EndsUnlessCrowded(catalog, next, source, clock, since, limit, page + j);
      Joined(poll, CursorOf(s), page, j, i);
      k := j + i;
    }
  }

  /** Every cursor the polls reach is one of the strategy, with 500 ids at most. */
  lemma {:induction false} CursorStaysSmall(
      catalog: seq<Item>, s: State, source: (nat, Option<Cursor>) -> seq<Item>, clock: nat -> Instant,
      since: Option<Instant>, limit: nat, page: nat, k: nat)
    requires Catalog(catalog) && ServesCatalog(catalog, source) && limit >= 1 && |s.ids| <= MAX_BOUNDARY_IDS
    requires AsksOn(TriggerOf(Timestamp, source, clock, since, Some(limit)), CursorOf(s), page, k)
    ensures
      var c := CursorAfter(TriggerOf(Timestamp, source, clock, since, Some(limit)), CursorOf(s), page, k);
      c.Some? && c.value.AtInstant? && |c.value.ids| <= MAX_BOUNDARY_IDS
    decreases k
  {
    hide Backlog, RunPoll, Settled;
    if k > 0 {
      var next := OnePoll(catalog, s, source, clock, since, limit, page);
      CursorStaysSmall(catalog, next, source, clock, since, limit, page + 1, k - 1);
    }
  }

  lemma CrowdNeverEnds(
      catalog: seq<Item>, s: State, source: (nat, Option<Cursor>) -> seq<Item>, clock: nat -> Instant,
      since: Option<Instant>, limit: nat, page: nat, k: nat)
    requires Catalog(catalog) && ServesCatalog(catalog, source) && limit >= 1 && |s.ids| <= MAX_BOUNDARY_IDS
    requires MeetsCrowd(catalog, TriggerOf(Timestamp, source, clock, since, Some(limit)), CursorOf(s), limit, page)
    ensures AsksOn(TriggerOf(Timestamp, source, clock, since, Some(limit)), CursorOf(s), page, k)
  {
    hide Backlog, RunPoll, Crowds, ServesCatalog;
    var poll := TriggerOf(Timestamp, source, clock, since, Some(limit));
    var j: nat :| AsksOn(poll, CursorOf(s), page, j)
      && CrowdedAt(catalog, CursorAfter(poll, CursorOf(s), page, j), limit);
    CursorStaysSmall(catalog, s, source, clock, since, limit, page, j);
    var c := CursorAfter(poll, CursorOf(s), page, j).value;
    CrowdIsNeverLeft(catalog, State(c.t, c.ids), source, clock, since, limit, page + j, k);
    Joined(poll, CursorOf(s), page, j, k);
    AskedBefore(poll, CursorOf(s), page, k, j + k);
  }

  /** Polling a fixed source comes to an end if and only if it reaches no crowded instant. */
  lemma EndsIffNoCrowd(
      catalog: seq<Item>, s: State, source: (nat, Option<Cursor>) -> seq<Item>, clock: nat -> Instant,
      since: Option<Instant>, limit: nat, page: nat)
    requires Catalog(catalog) && ServesCatalog(catalog, source) && limit >= 1 && |s.ids| <= MAX_BOUNDARY_IDS
    ensures
      var poll := TriggerOf(Timestamp, source, clock, since, Some(limit));
      (exists k: nat :: EndsAfter(poll, CursorOf(s), page, k))
      <==> !MeetsCrowd(catalog, poll, CursorOf(s), limit, page)
  {
    hide RunPoll, Crowds, ServesCatalog;
    var poll := TriggerOf(Timestamp, source, clock, since, Some(limit));
    if MeetsCrowd(catalog, poll, CursorOf(s), limit, page) {
      forall k: nat ensures !EndsAfter(poll, CursorOf(s), page, k) {
        CrowdNeverEnds(catalog, s, source, clock, since, limit, page, k + 1);
        AskedBefore(poll, CursorOf(s), page, k, k + 1);
        Joined(poll, CursorOf(s), page, k, 1);
      }
    } else {
      var k := EndsUnlessCrowded(catalog, s, source, clock, since, limit, page);
    }
  }

  /** What `k` polls and the one they end with deliver. */
  ghost function DeliveredInAll(poll: Trigger, cursor: Option<Cursor>, page: nat, k: nat): seq<Item>
    requires EndsAfter(poll, cursor, page, k)
  {
    DeliveredBy(poll, cursor, page, k) + poll(page + k, CursorAfter(poll, cursor, page, k)).value.items
  }

  /** Polls that have come to an end have delivered the whole backlog, whatever the cap cut. */
  lemma {:induction false} EndHasAll(
      catalog: seq<Item>, s: State, source: (nat, Option<Cursor>) -> seq<Item>, clock: nat -> Instant,
      since: Option<Instant>, limit: nat, page: nat, k: nat)
    requires Catalog(catalog) && ServesCatalog(catalog, source) && limit >= 1
    requires EndsAfter(TriggerOf(Timestamp, source, clock, since, Some(limit)), CursorOf(s), page, k)
    ensures
      var poll := TriggerOf(Timestamp, source, clock, since, Some(limit));
      forall x :: x in ItemsOf(Backlog(catalog, s)) ==> x in DeliveredInAll(poll, CursorOf(s), page, k)
    decreases k
  {
    hide Backlog, RunPoll, Settled, ItemsOf, ServesCatalog;
    var next := OnePoll(catalog, s, source, clock, since, limit, page);
    if k > 0 {
      EndHasAll(catalog, next, source, clock, since, limit, page + 1, k - 1);
      ItemsLeft(Backlog(catalog, s), limit, Backlog(catalog, next));
      LaterIsDelivered(TriggerOf(Timestamp, source, clock, since, Some(limit)), CursorOf(s), page, k);
    }
  }

  /** The first poll delivers its page, and the others the rest. */
  lemma LaterIsDelivered(poll: Trigger, cursor: Option<Cursor>, page: nat, k: nat)
    requires k > 0 && EndsAfter(poll, cursor, page, k)
    ensures
      var o := poll(page, cursor).value;
      && EndsAfter(poll, o.nextCursor, page + 1, k - 1)
      && DeliveredInAll(poll, cursor, page, k) == o.items + DeliveredInAll(poll, o.nextCursor, page + 1, k - 1)
  {
  }

  /** And a drain that reaches their end before its page bound succeeds. */
  lemma {:induction false} EndedDrain(
      catalog: seq<Item>, s: State, source: (nat, Option<Cursor>) -> seq<Item>, clock: nat -> Instant,
      since: Option<Instant>, limit: nat, page: nat, k: nat, collected: seq<Item>)
    requires Catalog(catalog) && ServesCatalog(catalog, source) && limit >= 1 && page + k < MAX_POLL_PAGES
    requires EndsAfter(TriggerOf(Timestamp, source, clock, since, Some(limit)), CursorOf(s), page, k)
    ensures
      DrainFrom(TriggerOf(Timestamp, source, clock, since, Some(limit)), CursorOf(s), page, collected).result.Ok?
    decreases k
  {
    hide Backlog, RunPoll, Settled;
    if k > 0 {
      var poll := TriggerOf(Timestamp, source, clock, since, Some(limit));
      var next := OnePoll(catalog, s, source, clock, since, limit, page);
      EndedDrain(catalog, next, source, clock, since, limit, page + 1, k - 1,
                 collected + poll(page, CursorOf(s)).value.items);
    }
  }

  /** So do polls of a source where fewer than 500 and a page share any instant. */
  lemma EndsWhenFewShare(
      catalog: seq<Item>, s: State, source: (nat, Option<Cursor>) -> seq<Item>, clock: nat -> Instant,
      since: Option<Instant>, limit: nat, page: nat) returns (k: nat)
    requires Catalog(catalog) && ServesCatalog(catalog, source) && limit >= 1
    requires forall t :: |Sharing(catalog, t)| < MAX_BOUNDARY_IDS + limit
    ensures EndsAfter(TriggerOf(Timestamp, source, clock, since, Some(limit)), CursorOf(s), page, k)
  {
    hide RunPoll, Crowds, Sharing, From, ServesCatalog;
    forall t ensures !Crowds(catalog, t, limit) {
      CrowdsIffShared(catalog, t, limit);
    }
    k := EndsUnlessCrowded(catalog, s, source, clock, since, limit, page);
  }

  // ---- sources that stamp everything ----

  ghost predicate Stamped(catalog: seq<Item>) {
    forall c :: c in catalog ==> c.updatedAt.At?
  }

  /** What a crowded instant ahead holds is new, and there are a page of it. */
  lemma CrowdAhead(catalog: seq<Item>, s: State, t: Instant, limit: nat)
    requires Catalog(catalog) && Stamped(catalog) && limit >= 1 && Crowds(catalog, t, limit) && s.t < t
    ensures |Backlog(catalog, s)| > limit && Backlog(catalog, s)[limit - 1].at <= t
  {
    var all, whole := Backlog(catalog, s), From(catalog, t);
    BacklogShape(catalog, s);
    BacklogShape(catalog, State(t, []));
    IdsCount(all);
    IdsCount(whole);
    AheadIsNew(catalog, s, t);
    SubsetSize(Ids(whole), Ids(all));
    if all[limit - 1].at > t {
      var n := MAX_BOUNDARY_IDS + limit;
      PageThere(whole, t, n);
      IdsCount(whole[..n]);
      IdsCount(all[..limit - 1]);
      forall k | k in whole[..n] ensures k in all[..limit - 1] {
        BelowIsBefore(all, limit - 1, k);
      }
      SubsetSize(Ids(whole[..n]), Ids(all[..limit - 1]));
    }
  }

  lemma AheadIsNew(catalog: seq<Item>, s: State, t: Instant)
    requires Catalog(catalog) && Stamped(catalog) && s.t < t
    ensures forall k :: k in From(catalog, t) ==> k in Backlog(catalog, s)
    ensures Ids(From(catalog, t)) <= Ids(Backlog(catalog, s))
  {
    ChronologicalIsFresh(catalog, Some(s.t), s.ids, s.t);
    ChronologicalIsFresh(catalog, Some(t), [], t);
    forall k | k in From(catalog, t) ensures k in Backlog(catalog, s) {
      var j :| 0 <= j < |catalog| && k == KeyOf(catalog[j], Some(t), t);
      assert catalog[j] in catalog;
      assert k == KeyOf(catalog[j], Some(s.t), s.t);
    }
  }

  lemma {:induction false} CrowdAheadNeverEnds(
      catalog: seq<Item>, s: State, t: Instant, source: (nat, Option<Cursor>) -> seq<Item>, clock: nat -> Instant,
      since: Option<Instant>, limit: nat, page: nat, k: nat)
    requires Catalog(catalog) && Stamped(catalog) && ServesCatalog(catalog, source) && limit >= 1
    requires Crowds(catalog, t, limit) && s.t <= t && |s.ids| <= MAX_BOUNDARY_IDS
    ensures AsksOn(TriggerOf(Timestamp, source, clock, since, Some(limit)), CursorOf(s), page, k)
    decreases k
  {
    hide Backlog, RunPoll, Crowds, Settled, Stamped;
    if s.t == t {
      CrowdIsNeverLeft(catalog, s, source, clock, since, limit, page, k);
    } else if k > 0 {
      CrowdAhead(catalog, s, t, limit);
      var next := OnePoll(catalog, s, source, clock, since, limit, page);
      CrowdAheadNeverEnds(catalog, next, t, source, clock, since, limit, page + 1, k - 1);
    }
  }

  /** Polling a source that stamps everything comes to an end, and so delivers everything, if and only if no instant
    * from the cursor's on is crowded.
    */
  lemma StampedEndsIff(
      catalog: seq<Item>, s: State, source: (nat, Option<Cursor>) -> seq<Item>, clock: nat -> Instant,
      since: Option<Instant>, limit: nat, page: nat)
    requires Catalog(catalog) && Stamped(catalog) && ServesCatalog(catalog, source) && limit >= 1
    requires |s.ids| <= MAX_BOUNDARY_IDS
    ensures
      (exists k: nat :: EndsAfter(TriggerOf(Timestamp, source, clock, since, Some(limit)), CursorOf(s), page, k))
      <==> (forall t :: t >= s.t ==> !Crowds(catalog, t, limit))
  {
    hide Backlog, RunPoll, Crowds, Settled, Stamped, ServesCatalog;
    var poll := TriggerOf(Timestamp, source, clock, since, Some(limit));
    if t :| t >= s.t && Crowds(catalog, t, limit) {
      forall k: nat ensures !EndsAfter(poll, CursorOf(s), page, k) {
        CrowdAheadNeverEnds(catalog, s, t, source, clock, since, limit, page, k + 1);
        AskedBefore(poll, CursorOf(s), page, k, k + 1);
        Joined(poll, CursorOf(s), page, k, 1);
      }
    } else {
      BoundaryNeverFallsBack(catalog, s, source, clock, since, limit, page);
      var k := EndsUnlessCrowded(catalog, s, source, clock, since, limit, page);
    }
  }

  lemma BoundaryNeverFallsBack(
      catalog: seq<Item>, s: State, source: (nat, Option<Cursor>) -> seq<Item>, clock: nat -> Instant,
      since: Option<Instant>, limit: nat, page: nat)
    requires Catalog(catalog) && ServesCatalog(catalog, source) && limit >= 1
    requires forall t :: t >= s.t ==> !Crowds(catalog, t, limit)
    ensures !MeetsCrowd(catalog, TriggerOf(Timestamp, source, clock, since, Some(limit)), CursorOf(s), limit, page)
  {
    hide Backlog, RunPoll, Crowds, Settled;
    var poll := TriggerOf(Timestamp, source, clock, since, Some(limit));
    forall k: nat | AsksOn(poll, CursorOf(s), page, k)
      ensures !CrowdedAt(catalog, CursorAfter(poll, CursorOf(s), page, k), limit)
    {
      CursorGoesUp(catalog, s, source, clock, since, limit, page, k);
    }
  }

  lemma {:induction false} CursorGoesUp(
      catalog: seq<Item>, s: State, source: (nat, Option<Cursor>) -> seq<Item>, clock: nat -> Instant,
      since: Option<Instant>, limit: nat, page: nat, k: nat)
    requires Catalog(catalog) && ServesCatalog(catalog, source) && limit >= 1
    requires AsksOn(TriggerOf(Timestamp, source, clock, since, Some(limit)), CursorOf(s), page, k)
    ensures
      var c := CursorAfter(TriggerOf(Timestamp, source, clock, since, Some(limit)), CursorOf(s), page, k);
      c.Some? && c.value.AtInstant? && c.value.t >= s.t
    decreases k
  {
    hide Backlog, RunPoll, Settled;
    if k > 0 {
      var next := OnePoll(catalog, s, source, clock, since, limit, page);
      CursorGoesUp(catalog, next, source, clock, since, limit, page + 1, k - 1);
    }
  }

  // ---- everything at one instant ----

  ghost predicate AllAt(catalog: seq<Item>, t: Instant) {
    forall i :: 0 <= i < |catalog| ==> catalog[i].updatedAt == At(t)
  }

  lemma OneInstant(catalog: seq<Item>, s: State, t: Instant)
    requires Catalog(catalog) && AllAt(catalog, t) && s.t < t
    ensures Backlog(catalog, s) == From(catalog, t) && |From(catalog, t)| == |catalog|
    ensures forall k :: k in From(catalog, t) ==> k.at == t
  {
    var all, whole := Backlog(catalog, s), From(catalog, t);
    ChronologicalIsFresh(catalog, Some(s.t), s.ids, s.t);
    ChronologicalIsFresh(catalog, Some(t), [], t);
    assert forall i :: 0 <= i < |catalog| ==> KeyOf(catalog[i], Some(t), t) == KeyOf(catalog[i], Some(s.t), s.t);
    OneOrder(all, whole);
    CatalogCount(catalog, whole, t);
  }

  lemma CatalogCount(catalog: seq<Item>, whole: seq<Keyed>, t: Instant)
    requires Catalog(catalog) && AllAt(catalog, t) && DistinctKeys(whole)
    requires forall k :: k in whole <==>
      exists i :: 0 <= i < |catalog| && k == KeyOf(catalog[i], Some(t), t) && IsNew(k, Some(t), [])
    ensures |whole| == |catalog|
  {
    var ids := seq(|catalog|, i requires 0 <= i < |catalog| => catalog[i].id);
    forall i | 0 <= i < |catalog| ensures KeyOf(catalog[i], Some(t), t) in whole {
      assert IsNew(KeyOf(catalog[i], Some(t), t), Some(t), []);
    }
    forall id ensures id in ToSet(ids) <==> id in Ids(whole) {
      if id in ids {
        var i :| 0 <= i < |ids| && ids[i] == id;
        assert KeyOf(catalog[i], Some(t), t) in whole;
      }
      if id in Ids(whole) {
        var k :| k in whole && k.id == id;
        var i :| 0 <= i < |catalog| && k == KeyOf(catalog[i], Some(t), t);
        assert ids[i] == id;
      }
    }
    assert ToSet(ids) == Ids(whole);
    IdsCount(whole);
    RepeatsShrink(ids);
  }

  lemma {:induction false} PagesBound(n: nat, limit: nat)
    requires limit >= 1
    ensures PagesFor(n, Some(limit)) <= n + 1
  {
    if n > limit {
      PagesBound(n - limit, limit);
    }
  }

  /** Items that all share an instant are drained if and only if they are at most 500 and a page more. */
  lemma OneInstantDrainsIff(
      catalog: seq<Item>, t: Instant, s: State, source: (nat, Option<Cursor>) -> seq<Item>, clock: nat -> Instant,
      since: Option<Instant>, limit: nat)
    requires Catalog(catalog) && ServesCatalog(catalog, source) && limit >= 1
    requires AllAt(catalog, t) && s.t < t
    ensures
      var r := DrainFrom(TriggerOf(Timestamp, source, clock, since, Some(limit)), CursorOf(s), 0, []);
      if |catalog| <= MAX_BOUNDARY_IDS + limit then r.result.Ok? else r == Drained(Err(TooManyPages), MAX_POLL_PAGES)
  {
    hide RunPoll, Settled;
    var poll := TriggerOf(Timestamp, source, clock, since, Some(limit));
    OneInstant(catalog, s, t);
    var next := OnePoll(catalog, s, source, clock, since, limit, 0);
    if |catalog| > limit {
      var items := [] + poll(0, CursorOf(s)).value.items;
      if |catalog| > MAX_BOUNDARY_IDS + limit {
        CrowdedDrainFails(catalog, next, source, clock, since, limit, 1, items);
      } else {
        var k := OneInstantEnds(catalog, t, next, source, clock, since, limit);
        EndedDrain(catalog, next, source, clock, since, limit, 1, k, items);
      }
    }
  }

  lemma OneInstantEnds(
      catalog: seq<Item>, t: Instant, s: State, source: (nat, Option<Cursor>) -> seq<Item>, clock: nat -> Instant,
      since: Option<Instant>, limit: nat) returns (k: nat)
    requires Catalog(catalog) && ServesCatalog(catalog, source) && limit >= 1
    requires AllAt(catalog, t) && s.t == t && |From(catalog, t)| <= MAX_BOUNDARY_IDS + limit
    ensures EndsAfter(TriggerOf(Timestamp, source, clock, since, Some(limit)), CursorOf(s), 1, k)
    ensures 1 + k < MAX_POLL_PAGES
  {
    hide RunPoll, Settled;
    k := UncrowdedIsLeft(catalog, s, source, clock, since, limit, 1);
    PagesBound(MAX_BOUNDARY_IDS - Least(Settled(catalog, s), MAX_BOUNDARY_IDS), limit);
  }

  /** One more than that, and the last are never delivered by any number of polls, though they are new to each. */
  lemma LastAreNeverDelivered(
      catalog: seq<Item>, t: Instant, s: State, source: (nat, Option<Cursor>) -> seq<Item>, clock: nat -> Instant,
      since: Option<Instant>, limit: nat, k: nat, j: nat)
    requires Catalog(catalog) && ServesCatalog(catalog, source) && limit >= 1
    requires AllAt(catalog, t) && s.t < t && MAX_BOUNDARY_IDS + limit <= j < |catalog|
    ensures |From(catalog, t)| == |catalog|
    ensures
      var poll := TriggerOf(Timestamp, source, clock, since, Some(limit));
      && AsksOn(poll, CursorOf(s), 0, k)
      && From(catalog, t)[j].item !in DeliveredBy(poll, CursorOf(s), 0, k)
  {
    hide RunPoll, Settled;
    var poll := TriggerOf(Timestamp, source, clock, since, Some(limit));
    OneInstant(catalog, s, t);
    var next := OnePoll(catalog, s, source, clock, since, limit, 0);
    if k > 0 {
      var whole := From(catalog, t);
      BeyondIsNeverDelivered(catalog, next, source, clock, since, limit, 1, k - 1, j);
      ItemsApart(catalog, t);
      assert forall i :: 0 <= i < limit ==> ItemsOf(whole)[i] != whole[j].item;
    }
  }

  lemma ItemsApart(catalog: seq<Item>, t: Instant)
    requires Catalog(catalog)
    ensures
      var whole := From(catalog, t);
      forall i, j :: 0 <= i < j < |whole| ==> whole[i].item != whole[j].item
  {
    var whole := From(catalog, t);
    ChronologicalIsFresh(catalog, Some(t), [], t);
    forall i, j | 0 <= i < j < |whole| ensures whole[i].item != whole[j].item {
      assert whole[i] in whole && whole[j] in whole;
      assert whole[i].id == whole[i].item.id && whole[j].id == whole[j].item.id;
    }
  }

  function Rows(n: nat, t: Instant): seq<Item> {
    seq(n, i => Item(i, At(t), true))
  }

  lemma RowsInOrder(n: nat, t: Instant)
    ensures Catalog(Rows(n, t)) && AllAt(Rows(n, t), t)
    ensures From(Rows(n, t), t) == seq(n, i requires 0 <= i < n => Keyed(Item(i, At(t), true), t, i, false))
  {
    var rows := Rows(n, t);
    var keys := seq(n, i requires 0 <= i < n => Keyed(Item(i, At(t), true), t, i, false));
    ChronologicalIsFresh(rows, Some(t), [], t);
    forall k ensures k in From(rows, t) <==> k in keys {
      if k in keys {
        var i :| 0 <= i < n && keys[i] == k;
        assert k == KeyOf(rows[i], Some(t), t) && IsNew(k, Some(t), []);
      }
      if k in From(rows, t) {
        var i :| 0 <= i < n && k == KeyOf(rows[i], Some(t), t);
        assert keys[i] == k;
      }
    }
    OneOrder(From(rows, t), keys);
  }

  /** 601 rows stamped alike, polled a hundred at a time from a cursor before them: seven pages of backlog, of which no
    * number of polls delivers the last row, and a drain fails.
    */
  lemma LastOf601NeverComes(k: nat)
    ensures
      var rows := Rows(601, 10);
      var poll := TriggerOf(Timestamp, (page, cursor) => rows, page => 10, None, Some(100));
      && PagesFor(601, Some(100)) == 7
      && |Backlog(rows, State(9, []))| == 601
      && DrainFrom(poll, CursorOf(State(9, [])), 0, []) == Drained(Err(TooManyPages), MAX_POLL_PAGES)
      && AsksOn(poll, CursorOf(State(9, [])), 0, k)
      && rows[600] !in DeliveredBy(poll, CursorOf(State(9, [])), 0, k)
  {
    hide RunPoll, Chronological;
    var rows := Rows(601, 10);
    var source: (nat, Option<Cursor>) -> seq<Item> := (page, cursor) => rows;
    var clock: nat -> Instant := page => 10;
    RowsInOrder(601, 10);
    assert ServesCatalog(rows, source);
    OneInstant(rows, State(9, []), 10);
    OneInstantDrainsIff(rows, 10, State(9, []), source, clock, None, 100);
    LastAreNeverDelivered(rows, 10, State(9, []), source, clock, None, 100, k, 600);
  }
}
