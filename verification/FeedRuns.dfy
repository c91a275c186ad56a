/** Whole runs of `lastItem` polls against a feed that grows at the top and drops items between them
  * (`lastItemPoll`, packages/connector-sdk/src/dedupe.ts).
  */
module FeedRuns {
  import opened Wrappers
  import opened Dedupe
  import opened Drain

  /** Before a poll the feed gains `top`, newest first, and loses what is `gone`; `fetched` is what it answers. */
  datatype Tick = Tick(top: seq<Item>, gone: set<Id>, fetched: seq<Item>, limit: Option<nat>, polledAt: Instant)

  /** `last` is the item remembered, `passed` holds the ids that stood at it or below, `log` is what was delivered. */
  datatype Run = Run(feed: seq<Item>, last: Id, passed: set<Id>, log: seq<Item>)

  // ---- runs ----

  function Without(feed: seq<Item>, gone: set<Id>): seq<Item> {
    if feed == [] then []
    else
      var n := |feed| - 1;
      if feed[n].id in gone then Without(feed[..n], gone) else Without(feed[..n], gone) + [feed[n]]
  }

  function FeedAfter(r: Run, tick: Tick): seq<Item> {
    tick.top + Without(r.feed, tick.gone)
  }

  /** What comes in at the top never stood at the remembered item or below it, and `fetch` heeds its contract. */
  ghost predicate LegalTick(r: Run, tick: Tick) {
    && Catalog(FeedAfter(r, tick))
    && (forall i :: 0 <= i < |tick.top| ==> tick.top[i].id !in r.passed)
    && Feeds(FeedAfter(r, tick), r.last, tick.fetched)
    && (tick.limit.Some? ==> tick.limit.value >= 1)
  }

  /** The remembered item is still in the feed. */
  predicate Kept(r: Run, tick: Tick) {
    HasId(FeedAfter(r, tick), r.last)
  }

  function IdsIn(items: seq<Item>): set<Id> {
    set x | x in items :: x.id
  }

  /** What the poll answers. */
  function Answer(r: Run, tick: Tick): PollOutcome
    requires Readable(tick.fetched)
  {
    LastItemOutcome(tick.fetched, Some(r.last), Some(AfterItem(r.last)), tick.limit, tick.polledAt).value
  }

  function LastAfter(o: PollOutcome, last: Id): Id {
    if o.nextCursor.Some? && o.nextCursor.value.AfterItem? then o.nextCursor.value.id else last
  }

  function Advance(r: Run, tick: Tick): Run
    requires Readable(tick.fetched)
  {
    var o := Answer(r, tick);
    Run(FeedAfter(r, tick), LastAfter(o, r.last), r.passed + IdsIn(o.items), r.log + o.items)
  }

  /** The remembered item is in the feed at every poll. */
  ghost predicate Legal(r: Run, ticks: seq<Tick>)
    decreases |ticks|
  {
    ticks == []
    || (LegalTick(r, ticks[0]) && Kept(r, ticks[0]) && Readable(ticks[0].fetched)
        && Legal(Advance(r, ticks[0]), ticks[1..]))
  }

  ghost function Play(r: Run, ticks: seq<Tick>): Run
    requires Legal(r, ticks)
    decreases |ticks|
  {
    if ticks == [] then r else Play(Advance(r, ticks[0]), ticks[1..])
  }

  /** A run begins at a feed that lists the remembered item. */
  ghost function Start(feed: seq<Item>, last: Id): Run {
    Run(feed, last, IdsIn(feed[IndexOf(feed, last)..]), [])
  }

  // ---- one poll ----

  lemma AboveItems(fetched: seq<Item>, last: Id, p: Instant)
    requires Readable(fetched)
    ensures
      var all := AboveLast(fetched, Some(last), p);
      && ItemsOf(all) == Reverse(fetched[..IndexOf(fetched, last)])
      && forall i :: 0 <= i < |all| ==> all[i].id == all[i].item.id
  {
  }

  /** What a listing comes to: its lowest items above the remembered one, and the highest of them to remember. */
  lemma ListingAnswer(fetched: seq<Item>, last: Id, limit: Option<nat>, p: Instant)
    requires Readable(fetched)
    ensures
      var o := LastItemOutcome(fetched, Some(last), Some(AfterItem(last)), limit, p).value;
      && o.items == FirstOf(Reverse(fetched[..IndexOf(fetched, last)]), limit)
      && LastAfter(o, last) == if o.items == [] then last else o.items[|o.items| - 1].id
  {
    hide AboveLast, IndexOf, Reverse;
    AboveItems(fetched, last, p);
    var all := AboveLast(fetched, Some(last), p);
    var delivered := Delivered(all, limit);
    assert ItemsOf(delivered) == FirstOf(ItemsOf(all), limit);
    if delivered != [] {
      var n := |delivered| - 1;
      assert delivered[n] == all[n];
      assert ItemsOf(delivered)[n] == delivered[n].item;
    }
  }

  /** What a poll delivers, oldest first, and which item it remembers. */
  lemma TickAnswer(r: Run, tick: Tick)
    requires LegalTick(r, tick)
    ensures Readable(tick.fetched)
    ensures
      var o := Answer(r, tick);
      && o.items == FirstOf(Reverse(FeedAfter(r, tick)[..IndexOf(FeedAfter(r, tick), r.last)]), tick.limit)
      && LastAfter(o, r.last) == if o.items == [] then r.last else o.items[|o.items| - 1].id
  {
    hide LastItemOutcome, LastAfter, IndexOf, FirstOf, FeedAfter;
    var feed, n := FeedAfter(r, tick), IndexOf(FeedAfter(r, tick), r.last);
    assert forall i :: 0 <= i < |tick.fetched| ==> tick.fetched[i] == feed[i];
    IndexOfPrefix(feed, r.last, tick.fetched);
    ListingAnswer(tick.fetched, r.last, tick.limit, tick.polledAt);
    assert tick.fetched[..n] == feed[..n];
  }

  // ---- the invariant ----

  /** Exactly what stands from place `n` on is passed. */
  ghost predicate SplitAt(feed: seq<Item>, passed: set<Id>, n: nat) {
    forall i :: 0 <= i < |feed| ==> (feed[i].id in passed <==> i >= n)
  }

  /** Of two delivered items still listed the one delivered later stands higher. */
  ghost predicate OldestFirst(feed: seq<Item>, log: seq<Item>) {
    forall i, j :: 0 <= i < j < |log| && HasId(feed, log[i].id) && HasId(feed, log[j].id) ==>
      IndexOf(feed, log[j].id) < IndexOf(feed, log[i].id)
  }

  /** What was delivered, besides what was passed at the start, is what is passed. */
  ghost predicate Logged(start: set<Id>, passed: set<Id>, log: seq<Item>) {
    passed == start + IdsIn(log) && DistinctIds(log) && forall x :: x in log ==> x.id !in start
  }

  ghost predicate Inv(start: set<Id>, r: Run) {
    && Catalog(r.feed) && HasId(r.feed, r.last)
    && SplitAt(r.feed, r.passed, IndexOf(r.feed, r.last))
    && Logged(start, r.passed, r.log) && OldestFirst(r.feed, r.log)
  }

  /** `after` is `top` and then the entries of `feed` at rising places. */
  ghost predicate Grown(feed: seq<Item>, top: seq<Item>, after: seq<Item>, at: seq<nat>) {
    && |after| == |top| + |at|
    && (forall i :: 0 <= i < |top| ==> after[i] == top[i])
    && (forall i :: 0 <= i < |at| ==> at[i] < |feed| && after[|top| + i] == feed[at[i]])
    && (forall i, j :: 0 <= i < j < |at| ==> at[i] < at[j])
  }

  lemma {:induction false} WithoutPlaces(feed: seq<Item>, gone: set<Id>) returns (at: seq<nat>)
    ensures Grown(feed, [], Without(feed, gone), at)
  {
    if feed == [] {
      at := [];
    } else {
      var n := |feed| - 1;
      at := WithoutPlaces(feed[..n], gone);
      if feed[n].id !in gone {
        at := at + [n];
      }
    }
  }

  lemma GrownPlaces(r: Run, tick: Tick) returns (at: seq<nat>)
    ensures Grown(r.feed, tick.top, FeedAfter(r, tick), at)
  {
    at := WithoutPlaces(r.feed, tick.gone);
  }

  /** Growing at the top and dropping items leaves what is passed below what is not. */
  lemma GrownSplit(feed: seq<Item>, top: seq<Item>, after: seq<Item>, at: seq<nat>, passed: set<Id>, m: nat)
    returns (n: nat)
    requires Grown(feed, top, after, at) && SplitAt(feed, passed, m)
    requires forall i :: 0 <= i < |top| ==> top[i].id !in passed
    ensures n <= |after| && SplitAt(after, passed, n)
  {
    var k := 0;
    while k < |at| && at[k] < m
      invariant 0 <= k <= |at|
      invariant forall i :: 0 <= i < k ==> at[i] < m
    {
      k := k + 1;
    }
    n := |top| + k;
    forall i | 0 <= i < |after| ensures after[i].id in passed <==> i >= n {
      if i >= |top| {
        var h := i - |top|;
        assert after[|top| + h] == feed[at[h]];
        assert k < h ==> at[k] < at[h];
      } else {
        assert after[i] == top[i];
      }
    }
  }

  /** The remembered item, if it is still there, is the highest passed one. */
  lemma GrownLast(feed: seq<Item>, top: seq<Item>, after: seq<Item>, at: seq<nat>, passed: set<Id>, last: Id, n: nat)
    requires Grown(feed, top, after, at) && DistinctIds(feed) && HasId(feed, last) && HasId(after, last)
    requires SplitAt(feed, passed, IndexOf(feed, last)) && SplitAt(after, passed, n)
    requires forall i :: 0 <= i < |top| ==> top[i].id !in passed
    ensures IndexOf(after, last) == n
  {
    var m, k := IndexOf(feed, last), IndexOf(after, last);
    assert feed[m].id in passed && after[k].id in passed;
    assert k >= |top| && after[|top| + (k - |top|)] == feed[at[k - |top|]];
    IndexOfUnique(feed, at[k - |top|]);
    if n < k {
      assert after[n].id in passed;
      assert n >= |top| && after[|top| + (n - |top|)] == feed[at[n - |top|]];
      assert at[n - |top|] < at[k - |top|];
    }
  }

  lemma GrownOrder(feed: seq<Item>, top: seq<Item>, after: seq<Item>, at: seq<nat>, passed: set<Id>, log: seq<Item>)
    requires Grown(feed, top, after, at) && DistinctIds(feed) && DistinctIds(after) && OldestFirst(feed, log)
    requires forall i :: 0 <= i < |top| ==> top[i].id !in passed
    requires forall x :: x in log ==> x.id in passed
    ensures OldestFirst(after, log)
  {
    forall i, j | 0 <= i < j < |log| && HasId(after, log[i].id) && HasId(after, log[j].id)
      ensures IndexOf(after, log[j].id) < IndexOf(after, log[i].id)
    {
      GrownPlace(feed, top, after, at, passed, log, i);
      GrownPlace(feed, top, after, at, passed, log, j);
      var a, b := IndexOf(after, log[i].id) - |top|, IndexOf(after, log[j].id) - |top|;
      assert at[b] < at[a];
    }
  }

  lemma GrownPlace(
      feed: seq<Item>, top: seq<Item>, after: seq<Item>, at: seq<nat>, passed: set<Id>, log: seq<Item>, i: nat)
    requires Grown(feed, top, after, at) && DistinctIds(feed) && i < |log| && HasId(after, log[i].id)
    requires forall i :: 0 <= i < |top| ==> top[i].id !in passed
    requires forall x :: x in log ==> x.id in passed
    ensures
      var a := IndexOf(after, log[i].id) - |top|;
      0 <= a < |at| && HasId(feed, log[i].id) && IndexOf(feed, log[i].id) == at[a]
  {
    var k := IndexOf(after, log[i].id);
    assert log[i] in log;
    assert after[k].id in passed;
    assert k >= |top| && after[|top| + (k - |top|)] == feed[at[k - |top|]];
    IndexOfUnique(feed, at[k - |top|]);
  }

  lemma ChangeKeeps(start: set<Id>, r: Run, tick: Tick) returns (n: nat)
    requires Inv(start, r) && LegalTick(r, tick)
    ensures n <= |FeedAfter(r, tick)| && SplitAt(FeedAfter(r, tick), r.passed, n)
    ensures OldestFirst(FeedAfter(r, tick), r.log)
    ensures Kept(r, tick) ==> IndexOf(FeedAfter(r, tick), r.last) == n
  {
    hide SplitAt, OldestFirst, Grown, FeedAfter, Feeds, IdsIn;
    var at := GrownPlaces(r, tick);
    n := GrownSplit(r.feed, tick.top, FeedAfter(r, tick), at, r.passed, IndexOf(r.feed, r.last));
    GrownOrder(r.feed, tick.top, FeedAfter(r, tick), at, r.passed, r.log) by {
      LoggedIsPassed(start, r.passed, r.log);
    }
    if Kept(r, tick) {
      GrownLast(r.feed, tick.top, FeedAfter(r, tick), at, r.passed, r.last, n);
    }
  }

  lemma LoggedIsPassed(start: set<Id>, passed: set<Id>, log: seq<Item>)
    requires Logged(start, passed, log)
    ensures forall x :: x in log ==> x.id in passed
  {
  }

  /** A poll that finds the remembered item keeps the invariant. */
  lemma TickKeeps(start: set<Id>, r: Run, tick: Tick)
    requires Inv(start, r) && LegalTick(r, tick) && Kept(r, tick)
    ensures Readable(tick.fetched) && Inv(start, Advance(r, tick))
  {
    hide SplitAt, OldestFirst, FeedAfter, Feeds, IdsIn, Answer, LastAfter, Logged, Catalog, FirstOf;
    TickAnswer(r, tick);
    var n := ChangeKeeps(start, r, tick);
    DeliveredStand(FeedAfter(r, tick), n, tick.limit);
    PageKeeps(start, FeedAfter(r, tick), r.last, r.passed, r.log, Answer(r, tick).items);
  }

  lemma DeliveredStand(feed: seq<Item>, n: nat, limit: Option<nat>)
    requires n <= |feed|
    ensures TopDown(feed, n, FirstOf(Reverse(feed[..n]), limit))
  {
  }

  /** The items stand right above place `n`, the first of them lowest. */
  ghost predicate TopDown(feed: seq<Item>, n: nat, items: seq<Item>) {
    |items| <= n <= |feed| && forall i :: 0 <= i < |items| ==> items[i] == feed[n - 1 - i]
  }

  /** Delivering the lowest of what stands above the remembered item. */
  lemma PageKeeps(start: set<Id>, feed: seq<Item>, last: Id, passed: set<Id>, log: seq<Item>, items: seq<Item>)
    requires Catalog(feed) && HasId(feed, last) && SplitAt(feed, passed, IndexOf(feed, last))
    requires Logged(start, passed, log) && OldestFirst(feed, log) && TopDown(feed, IndexOf(feed, last), items)
    ensures
      var next := if items == [] then last else items[|items| - 1].id;
      Inv(start, Run(feed, next, passed + IdsIn(items), log + items))
  {
    var n := IndexOf(feed, last);
    SplitMore(feed, passed, items, n);
    OrderMore(feed, passed, log, items, n) by {
      LoggedIsPassed(start, passed, log);
    }
    LoggedMore(start, passed, log, items);
    IndexOfUnique(feed, n - |items|);
  }

  lemma SplitMore(feed: seq<Item>, passed: set<Id>, items: seq<Item>, n: nat)
    requires DistinctIds(feed) && SplitAt(feed, passed, n) && TopDown(feed, n, items)
    ensures SplitAt(feed, passed + IdsIn(items), n - |items|)
    ensures DistinctIds(items) && forall x :: x in items ==> x.id !in passed
  {
    forall i | 0 <= i < |feed| ensures feed[i].id in passed + IdsIn(items) <==> i >= n - |items| {
      if n - |items| <= i < n {
        assert items[n - 1 - i] == feed[i] && items[n - 1 - i] in items;
      } else {
        forall x | x in items ensures x.id != feed[i].id {
          var h :| 0 <= h < |items| && items[h] == x;
          assert items[h] == feed[n - 1 - h];
        }
      }
    }
  }

  lemma LoggedMore(start: set<Id>, passed: set<Id>, log: seq<Item>, items: seq<Item>)
    requires Logged(start, passed, log) && DistinctIds(items) && forall x :: x in items ==> x.id !in passed
    ensures Logged(start, passed + IdsIn(items), log + items)
  {
    var more := log + items;
    LoggedIsPassed(start, passed, log);
    forall i, j | 0 <= i < j < |more| ensures more[i].id != more[j].id {
      if i < |log| <= j {
        assert more[i] in log && more[j] in items;
      }
    }
  }

  lemma OrderMore(feed: seq<Item>, passed: set<Id>, log: seq<Item>, items: seq<Item>, n: nat)
    requires DistinctIds(feed) && SplitAt(feed, passed, n) && TopDown(feed, n, items) && OldestFirst(feed, log)
    requires forall x :: x in log ==> x.id in passed
    ensures OldestFirst(feed, log + items)
  {
    var more := log + items;
    forall i, j | 0 <= i < j < |more| && HasId(feed, more[i].id) && HasId(feed, more[j].id)
      ensures IndexOf(feed, more[j].id) < IndexOf(feed, more[i].id)
    {
      if j >= |log| {
        IndexOfUnique(feed, n - 1 - (j - |log|));
        if i >= |log| {
          IndexOfUnique(feed, n - 1 - (i - |log|));
        } else {
          assert more[i] in log;
          assert feed[IndexOf(feed, more[i].id)].id in passed;
        }
      } else {
        assert more[i] == log[i] && more[j] == log[j];
      }
    }
  }

  lemma {:induction false} PlayKeeps(start: set<Id>, r: Run, ticks: seq<Tick>)
    requires Inv(start, r) && Legal(r, ticks)
    ensures Inv(start, Play(r, ticks))
    decreases |ticks|
  {
    if ticks != [] {
      TickKeeps(start, r, ticks[0]);
      PlayKeeps(start, Advance(r, ticks[0]), ticks[1..]);
    }
  }

  lemma StartsWell(feed: seq<Item>, last: Id)
    requires Catalog(feed) && HasId(feed, last)
    ensures Inv(Start(feed, last).passed, Start(feed, last))
  {
    var n := IndexOf(feed, last);
    assert feed == feed[..n] + feed[n..];
    forall i | 0 <= i < |feed| ensures feed[i].id in IdsIn(feed[n..]) <==> i >= n {
      if i >= n {
        assert feed[n..][i - n] == feed[i];
      } else {
        forall x | x in feed[n..] ensures x.id != feed[i].id {
          var j :| n <= j < |feed| && feed[j] == x;
        }
      }
    }
  }

  // ---- main results ----

  /** While the remembered item stays listed: nothing is delivered twice, what was delivered came oldest first, and what
    * is listed was delivered or passed at the start exactly if it stands at the remembered item or below.
    */
  lemma EachOnce(feed: seq<Item>, last: Id, ticks: seq<Tick>)
    requires Catalog(feed) && HasId(feed, last) && Legal(Start(feed, last), ticks)
    ensures
      var r, start := Play(Start(feed, last), ticks), Start(feed, last).passed;
      && DistinctIds(r.log) && (forall x :: x in r.log ==> x.id !in start)
      && OldestFirst(r.feed, r.log) && HasId(r.feed, r.last)
      && SplitAt(r.feed, start + IdsIn(r.log), IndexOf(r.feed, r.last))
  {
    hide Start, SplitAt, OldestFirst, Catalog;
    StartsWell(feed, last);
    PlayKeeps(Start(feed, last).passed, Start(feed, last), ticks);
  }

  /** After such a run a poll delivers something passed if and only if the remembered item is gone and something passed
    * is still listed. Once it is gone the poll starts on the whole feed.
    */
  lemma AgainIffGone(feed: seq<Item>, last: Id, ticks: seq<Tick>, tick: Tick)
    requires Catalog(feed) && HasId(feed, last) && Legal(Start(feed, last), ticks)
    requires LegalTick(Play(Start(feed, last), ticks), tick)
    ensures Readable(tick.fetched)
    ensures
      var r := Play(Start(feed, last), ticks);
      var items := Answer(r, tick).items;
      && (HoldsPassed(items, r.passed) <==> !Kept(r, tick) && HoldsPassed(FeedAfter(r, tick), r.passed))
      && (!Kept(r, tick) ==> items == FirstOf(Reverse(FeedAfter(r, tick)), tick.limit))
  {
    hide Start, SplitAt, OldestFirst, FeedAfter, Feeds, IdsIn, Answer, Catalog, FirstOf, HoldsPassed;
    var start := Start(feed, last).passed;
    StartsWell(feed, last);
    PlayKeeps(start, Start(feed, last), ticks);
    var r := Play(Start(feed, last), ticks);
    TickAnswer(r, tick);
    var n := ChangeKeeps(start, r, tick);
    var after := FeedAfter(r, tick);
    var m := IndexOf(after, r.last);
    DeliveredStand(after, m, tick.limit);
    PageHoldsPassed(after, r.passed, n, m, Answer(r, tick).items, tick.limit);
    assert m == |after| ==> after[..m] == after;
  }

  ghost predicate HoldsPassed(items: seq<Item>, passed: set<Id>) {
    exists x :: x in items && x.id in passed
  }

  lemma PageHoldsPassed(
      feed: seq<Item>, passed: set<Id>, n: nat, m: nat, items: seq<Item>, limit: Option<nat>)
    requires SplitAt(feed, passed, n) && n <= |feed| && m <= |feed| && (m < |feed| ==> m == n)
    requires items == FirstOf(Reverse(feed[..m]), limit) && TopDown(feed, m, items)
    requires limit.Some? ==> limit.value >= 1
    ensures HoldsPassed(items, passed) <==> m == |feed| && HoldsPassed(feed, passed)
  {
    if x :| x in items && x.id in passed {
      var i :| 0 <= i < |items| && items[i] == x;
      assert feed[m - 1 - i] in feed;
    }
    if m == |feed| {
      if x :| x in feed && x.id in passed {
        var i :| 0 <= i < |feed| && feed[i] == x;
        assert items[0] == feed[m - 1] && items[0] in items;
      }
    }
  }

  /** A listing that stops short of the remembered item skips what it leaves out above it, for good: that now stands
    * below the item remembered next.
    */
  lemma ShortListingSkips(feed: seq<Item>, last: Id, fetched: seq<Item>, limit: Option<nat>, p: Instant)
    requires Catalog(feed) && HasId(feed, last) && fetched <= feed && (limit.Some? ==> limit.value >= 1)
    ensures Readable(fetched)
    ensures
      var o := LastItemOutcome(fetched, Some(last), Some(AfterItem(last)), limit, p).value;
      (exists i :: IndexOf(feed, LastAfter(o, last)) < i < IndexOf(feed, last) && feed[i] !in o.items)
      <==> 0 < |fetched| < IndexOf(feed, last)
  {
    hide LastAfter, IndexOf, AboveLast, Page;
    var n := IndexOf(feed, last);
    ListingStops(feed, last, fetched, limit, p);
    var o := LastItemOutcome(fetched, Some(last), Some(AfterItem(last)), limit, p).value;
    var m := if |fetched| < n then |fetched| else n;
    if m < n {
      assert feed[m] !in o.items;
    }
    forall i | 0 <= m - |o.items| < i < m ensures feed[i] in o.items {
      assert o.items[m - 1 - i] == feed[i];
    }
  }

  /** The poll delivers the lowest of what its listing holds above the remembered item, and remembers the highest of it.
    */
  lemma ListingStops(feed: seq<Item>, last: Id, fetched: seq<Item>, limit: Option<nat>, p: Instant)
    requires Catalog(feed) && HasId(feed, last) && fetched <= feed && (limit.Some? ==> limit.value >= 1)
    ensures Readable(fetched)
    ensures
      var n := IndexOf(feed, last);
      var m := if |fetched| < n then |fetched| else n;
      var o := LastItemOutcome(fetched, Some(last), Some(AfterItem(last)), limit, p).value;
      && TopDown(feed, m, o.items) && (m > 0 ==> o.items != [])
      && IndexOf(feed, LastAfter(o, last)) == if m == 0 then n else m - |o.items|
  {
    hide LastAfter, IndexOf, AboveLast, Page;
    assert forall i :: 0 <= i < |fetched| ==> fetched[i] == feed[i];
    var n := IndexOf(feed, last);
    var m := if |fetched| < n then |fetched| else n;
    PrefixIndex(feed, last, fetched);
    ListingAnswer(fetched, last, limit, p);
    assert fetched[..m] == feed[..m];
    DeliveredStand(feed, m, limit);
    IndexOfUnique(feed, n);
    if m > 0 {
      IndexOfUnique(feed, m - |LastItemOutcome(fetched, Some(last), Some(AfterItem(last)), limit, p).value.items|);
    }
  }

  lemma PrefixIndex(feed: seq<Item>, last: Id, fetched: seq<Item>)
    requires HasId(feed, last) && fetched <= feed
    ensures
      var n := IndexOf(feed, last);
      IndexOf(fetched, last) == if |fetched| < n then |fetched| else n
  {
    var n, j := IndexOf(feed, last), IndexOf(fetched, last);
    assert forall i :: 0 <= i < |fetched| ==> fetched[i] == feed[i];
    if n < |fetched| {
      assert fetched[n].id == last;
    }
  }
}
