/** What the cursor's cap of 500 ids makes of a page, told by what was listed, remembered and delivered
  * (packages/connector-sdk/src/dedupe.ts).
  */
module DedupeCap {
  import opened Wrappers
  import opened Counting
  import opened Dedupe
  import opened DedupePages

  // ---- no id twice ----

  lemma LastApart(s: seq<Keyed>)
    requires DistinctKeys(s) && s != []
    ensures forall k :: k in s[..|s| - 1] ==> k in s && k.id != s[|s| - 1].id
  {
  }

  lemma {:induction false} NewestNoDup(delivered: seq<Keyed>, newest: Instant)
    requires DistinctKeys(delivered)
    ensures NoDup(NewestIds(delivered, newest))
    ensures forall id :: id in NewestIds(delivered, newest) ==> exists k ::
      k in delivered && k.id == id && k.at == newest
  {
    if delivered != [] && delivered[|delivered| - 1].at == newest {
      var rest := delivered[..|delivered| - 1];
      NewestNoDup(rest, newest);
      LastApart(delivered);
      JoinNoDup([delivered[|delivered| - 1].id], NewestIds(rest, newest));
    }
  }

  lemma {:induction false} PinnedNoDup(delivered: seq<Keyed>)
    requires DistinctKeys(delivered)
    ensures NoDup(PinnedIds(delivered))
    ensures forall id :: id in PinnedIds(delivered) ==> exists k :: k in delivered && k.id == id && k.pinned
  {
    if delivered != [] {
      var rest := delivered[..|delivered| - 1];
      PinnedNoDup(rest);
      LastApart(delivered);
      JoinNoDup(PinnedIds(rest), if delivered[|rest|].pinned then [delivered[|rest|].id] else []);
    }
  }

  lemma {:induction false} PinnedSeenNoDup(fetched: seq<Item>, b: Option<Instant>, seen: seq<Id>, p: Instant)
    requires Readable(fetched) && DistinctIds(fetched)
    ensures NoDup(PinnedSeen(fetched, b, seen, p))
  {
    if fetched != [] {
      var n := |fetched| - 1;
      PinnedSeenNoDup(fetched[..n], b, seen, p);
      PinnedSeenMembers(fetched[..n], b, seen, p);
    }
  }

  /** A page never remembers an id twice. */
  lemma RememberedNoDup(fetched: seq<Item>, b: Option<Instant>, seen: seq<Id>, p: Instant, m: nat)
    requires IsPage(fetched, b, seen, p, m)
    ensures NoDup(Remembered(fetched, b, seen, p, m))
  {
    var page := PageOf(fetched, b, seen, p, m);
    var newest := page[m - 1].at;
    var pinnedSeen := PinnedSeen(fetched, b, seen, p);
    ChronologicalIsFresh(fetched, b, seen, p);
    PageSplit(Chronological(fetched, b, seen, p), m);
    NewestNoDup(page, newest);
    PinnedNoDup(page);
    forall k | k in page ensures IsNew(k, b, seen) && (k.pinned ==> b == Some(k.at) && k.id !in seen) {
      assert k in Chronological(fetched, b, seen, p);
    }
    if b == Some(newest) {
      forall id | id in NewestIds(page, newest) ensures id !in Distinct(seen) {
        var k :| k in page && k.id == id && k.at == newest;
      }
      JoinNoDup(Distinct(seen), NewestIds(page, newest));
    } else {
      PinnedSeenNoDup(fetched, b, seen, p);
      PinnedSeenMembers(fetched, b, seen, p);
      PinnedSeenApart(fetched, b, seen, p, m);
      forall id | id in pinnedSeen ensures id !in PinnedIds(page) && id !in NewestIds(page, newest) {
        assert forall k :: k in page ==> k.id != id;
      }
      JoinNoDup(pinnedSeen, PinnedIds(page));
      forall id | id in PinnedIds(page) ensures id !in NewestIds(page, newest) {
        var k :| k in page && k.id == id && k.pinned;
        assert forall q :: q in page && q.id == id ==> q == k;
      }
      JoinNoDup(pinnedSeen + PinnedIds(page), NewestIds(page, newest));
    }
  }

  /** A pinned item already delivered is not on the page. */
  lemma PinnedSeenApart(fetched: seq<Item>, b: Option<Instant>, seen: seq<Id>, p: Instant, m: nat)
    requires IsPage(fetched, b, seen, p, m)
    ensures forall id, k :: id in PinnedSeen(fetched, b, seen, p) && k in PageOf(fetched, b, seen, p, m) ==> k.id != id
  {
    ChronologicalIsFresh(fetched, b, seen, p);
    PageSplit(Chronological(fetched, b, seen, p), m);
    PinnedSeenMembers(fetched, b, seen, p);
    forall id, k | id in PinnedSeen(fetched, b, seen, p) && k in PageOf(fetched, b, seen, p, m)
      ensures k.id != id
    {
      var i :| 0 <= i < |fetched| && k == KeyOf(fetched[i], b, p) && IsNew(k, b, seen);
      var j :| 0 <= j < |fetched| && fetched[j].id == id && fetched[j].updatedAt.Unstamped? && b.Some? && id in seen;
      assert i != j;
    }
  }

  // ---- places in a list ----

  /** What stands behind the first place of `id`. */
  function Behind(list: seq<Id>, id: Id): set<Id> {
    if list == [] then {} else if list[0] == id then ToSet(list[1..]) else Behind(list[1..], id)
  }

  lemma {:induction false} BehindJoin(a: seq<Id>, b: seq<Id>, id: Id)
    ensures Behind(a + b, id) == if id in a then Behind(a, id) + ToSet(b) else Behind(b, id)
  {
    if a == [] {
      assert a + b == b;
    } else {
      assert (a + b)[1..] == a[1..] + b;
      BehindJoin(a[1..], b, id);
      assert a == [a[0]] + a[1..];
    }
  }

  lemma {:induction false} BehindIsTail(list: seq<Id>, id: Id) returns (i: nat)
    requires id in list
    ensures i < |list| && list[i] == id && id !in list[..i] && Behind(list, id) == ToSet(list[i + 1..])
  {
    if list[0] == id {
      i := 0;
    } else {
      assert list == [list[0]] + list[1..];
      var j := BehindIsTail(list[1..], id);
      i := j + 1;
      assert list[1..][j + 1..] == list[i + 1..];
      assert list[..i] == [list[0]] + list[1..][..j];
    }
  }

  /** The cap cuts an id exactly when 500 ids or more stand behind it. */
  lemma CutIffCrowded(ids: seq<Id>, id: Id)
    requires NoDup(ids) && id in ids
    ensures Cut(ids, id) <==> |Behind(ids, id)| >= MAX_BOUNDARY_IDS
  {
    var i := BehindIsTail(ids, id);
    assert NoDup(ids[i + 1..]);
    RepeatsShrink(ids[i + 1..]);
    if |ids| > MAX_BOUNDARY_IDS {
      var from := |ids| - MAX_BOUNDARY_IDS;
      if i >= from {
        assert ids[from..][i - from] == id;
      } else {
        forall j | from <= j < |ids| ensures ids[j] != id {
        }
      }
    }
  }

  // ---- what outlasts an id ----

  /** Ids delivered at the newest instant with a lower id than this one. */
  ghost function LowerAt(page: seq<Keyed>, newest: Instant, id: Id): set<Id> {
    set k | k in page && k.at == newest && k.id < id :: k.id
  }

  ghost function IdsAt(page: seq<Keyed>, newest: Instant): set<Id> {
    set k | k in page && k.at == newest :: k.id
  }

  ghost function PinnedOn(page: seq<Keyed>): set<Id> {
    set k | k in page && k.pinned :: k.id
  }

  /** Pinned ids on the page above this one. */
  ghost function HigherPinned(page: seq<Keyed>, id: Id): set<Id> {
    set k | k in page && k.pinned && k.id > id :: k.id
  }

  /** Unstamped items delivered before that are listed after this one. */
  ghost function PinnedBelow(fetched: seq<Item>, seen: seq<Id>, id: Id): set<Id> {
    set i, j | 0 <= i < j < |fetched| && fetched[i].id == id && fetched[j].updatedAt.Unstamped? && fetched[j].id in seen
      :: fetched[j].id
  }

  /** The ids the next cursor would sooner keep than this one: what was delivered at the new boundary goes last, the
    * lowest id last of all; before it the pinned items just delivered; before them what was remembered, in its order
    * while the boundary stands, and in the order of the listing, unstamped items only, once it has moved.
    */
  ghost function Outlasting(fetched: seq<Item>, b: Option<Instant>, seen: seq<Id>, page: seq<Keyed>, id: Id): set<Id>
    requires page != []
  {
    var newest := page[|page| - 1].at;
    if HoldsAtNewest(page, id, newest) then LowerAt(page, newest, id)
    else if b == Some(newest) then Behind(Distinct(seen), id) + IdsAt(page, newest)
    else if HoldsPinned(page, id) then HigherPinned(page, id) + IdsAt(page, newest)
    else PinnedBelow(fetched, seen, id) + PinnedOn(page) + IdsAt(page, newest)
  }

  ghost predicate Upto(page: seq<Keyed>, newest: Instant) {
    Ordered(page) && DistinctKeys(page) && forall k :: k in page ==> k.at <= newest
  }

  lemma NewestSet(page: seq<Keyed>, newest: Instant)
    requires Upto(page, newest)
    ensures ToSet(NewestIds(page, newest)) == IdsAt(page, newest)
  {
    NewestMembers(page, newest);
    forall x ensures x in ToSet(NewestIds(page, newest)) <==> x in IdsAt(page, newest) {
      assert x in NewestIds(page, newest) <==> exists k :: k in page && k.at == newest && k.id == x;
    }
  }

  /** Of the entries at one instant the last has the highest id. */
  lemma LastIsHighest(page: seq<Keyed>)
    requires Ordered(page) && DistinctKeys(page) && page != []
    ensures
      var n := |page| - 1;
      && page == page[..n] + [page[n]]
      && forall q :: q in page[..n] ==> q in page && q.id != page[n].id && (q.at == page[n].at ==> q.id < page[n].id)
  {
    var n := |page| - 1;
    forall q | q in page[..n] ensures q in page && q.id != page[n].id && (q.at == page[n].at ==> q.id < page[n].id) {
      var j :| 0 <= j < n && page[j] == q;
      assert Le(page[j], page[n]);
    }
  }

  lemma LowerAtTop(page: seq<Keyed>, newest: Instant, id: Id)
    requires Ordered(page) && DistinctKeys(page) && page != [] && page[|page| - 1].at == newest
    ensures page[|page| - 1].id == id ==> LowerAt(page, newest, id) == IdsAt(page[..|page| - 1], newest)
    ensures page[|page| - 1].id > id ==> LowerAt(page, newest, id) == LowerAt(page[..|page| - 1], newest, id)
  {
    LastIsHighest(page);
  }

  lemma {:induction false} BehindNewest(page: seq<Keyed>, newest: Instant, id: Id)
    requires Upto(page, newest) && HoldsAtNewest(page, id, newest)
    ensures Behind(NewestIds(page, newest), id) == LowerAt(page, newest, id)
  {
    hide LowerAt, IdsAt;
    var n := |page| - 1;
    LastAtNewest(page, newest, id);
    LastIsHighest(page);
    LowerAtTop(page, newest, id);
    assert NewestIds(page, newest) == [page[n].id] + NewestIds(page[..n], newest);
    assert ([page[n].id] + NewestIds(page[..n], newest))[1..] == NewestIds(page[..n], newest);
    NewestSet(page[..n], newest);
    if page[n].id != id {
      BehindNewest(page[..n], newest, id);
    }
  }

  lemma LastAtNewest(page: seq<Keyed>, newest: Instant, id: Id)
    requires Upto(page, newest) && HoldsAtNewest(page, id, newest)
    ensures page != [] && page[|page| - 1].at == newest
    ensures page[|page| - 1].id != id ==> page[|page| - 1].id > id && HoldsAtNewest(page[..|page| - 1], id, newest)
  {
    var n := |page| - 1;
    var k :| k in page && k.id == id && k.at == newest;
    var h :| 0 <= h < |page| && page[h] == k;
    assert page[n] in page;
    if h < n {
      assert Le(page[h], page[n]) && page[..n][h] == k;
    }
  }

  /** The pinned keys of a page share one instant. */
  ghost predicate PinnedTogether(page: seq<Keyed>, b: Option<Instant>) {
    forall k :: k in page && k.pinned ==> b == Some(k.at)
  }

  lemma PinnedTop(page: seq<Keyed>, b: Option<Instant>, id: Id)
    requires Ordered(page) && DistinctKeys(page) && PinnedTogether(page, b) && HoldsPinned(page, id)
    ensures
      var n := |page| - 1;
      && (page[n].id == id ==> page[n].pinned && HigherPinned(page, id) == {})
      && (page[n].id != id ==>
        && HoldsPinned(page[..n], id)
        && HigherPinned(page, id) == HigherPinned(page[..n], id) + if page[n].pinned then {page[n].id} else {})
  {
    var n := |page| - 1;
    LastIsHighest(page);
    var k :| k in page && k.id == id && k.pinned;
    if page[n].id == id {
      assert k == page[n];
    } else {
      assert k in page[..n];
    }
  }

  lemma {:induction false} BehindPinned(page: seq<Keyed>, b: Option<Instant>, id: Id)
    requires Ordered(page) && DistinctKeys(page) && PinnedTogether(page, b) && HoldsPinned(page, id)
    ensures Behind(PinnedIds(page), id) == HigherPinned(page, id)
  {
    var n := |page| - 1;
    LastIsHighest(page);
    PinnedTop(page, b, id);
    PinnedMembers(page[..n]);
    BehindJoin(PinnedIds(page[..n]), [page[n].id], id);
    assert ToSet([page[n].id]) == {page[n].id} && [page[n].id][1..] == [];
    if page[n].id != id {
      assert PinnedTogether(page[..n], b);
      BehindPinned(page[..n], b, id);
    }
  }

  lemma {:induction false} BehindPinnedSeen(fetched: seq<Item>, b: Option<Instant>, seen: seq<Id>, p: Instant, id: Id)
    requires Readable(fetched) && DistinctIds(fetched) && b.Some? && PinnedBefore(fetched, seen, id)
    ensures Behind(PinnedSeen(fetched, b, seen, p), id) == PinnedBelow(fetched, seen, id)
  {
    var n := |fetched| - 1;
    var i :| 0 <= i < |fetched| && fetched[i].id == id && fetched[i].updatedAt.Unstamped?;
    var rest := PinnedSeen(fetched[..n], b, seen, p);
    PinnedSeenMembers(fetched[..n], b, seen, p);
    assert fetched[n].updatedAt.Unstamped? && fetched[n].id in seen ==>
      PinnedSeen(fetched, b, seen, p) == rest + [fetched[n].id];
    if i == n {
      BehindJoin(rest, [id], id);
      assert id !in rest;
      assert Behind([id], id) == {};
      assert PinnedBelow(fetched, seen, id) == {};
    } else {
      assert fetched[..n][i] == fetched[i];
      BehindPinnedSeen(fetched[..n], b, seen, p, id);
      BelowMore(fetched, seen, id, i);
      if fetched[n].updatedAt.Unstamped? && fetched[n].id in seen {
        BehindJoin(rest, [fetched[n].id], id);
        assert ToSet([fetched[n].id]) == {fetched[n].id};
      }
    }
  }

  lemma BelowMore(fetched: seq<Item>, seen: seq<Id>, id: Id, i: nat)
    requires DistinctIds(fetched) && i < |fetched| - 1 && fetched[i].id == id
    ensures
      var n := |fetched| - 1;
      PinnedBelow(fetched, seen, id) == PinnedBelow(fetched[..n], seen, id)
        + if fetched[n].updatedAt.Unstamped? && fetched[n].id in seen then {fetched[n].id} else {}
  {
    var n := |fetched| - 1;
    forall x | x in PinnedBelow(fetched[..n], seen, id) ensures x in PinnedBelow(fetched, seen, id) {
      var h, j :| 0 <= h < j < n && fetched[..n][h].id == id && fetched[..n][j].updatedAt.Unstamped?
        && fetched[..n][j].id in seen && fetched[..n][j].id == x;
      assert fetched[h].id == id && fetched[j].id == x;
    }
    forall x | x in PinnedBelow(fetched, seen, id) && x != fetched[n].id
      ensures x in PinnedBelow(fetched[..n], seen, id) {
      var h, j :| 0 <= h < j < |fetched| && fetched[h].id == id && fetched[j].updatedAt.Unstamped?
        && fetched[j].id in seen && fetched[j].id == x;
      assert fetched[..n][h].id == id && fetched[..n][j].id == x;
    }
  }

  lemma PinnedOnIs(page: seq<Keyed>)
    ensures ToSet(PinnedIds(page)) == PinnedOn(page)
  {
    PinnedMembers(page);
    forall x ensures x in ToSet(PinnedIds(page)) <==> x in PinnedOn(page) {
      assert x in PinnedIds(page) <==> exists k :: k in page && k.pinned && k.id == x;
    }
  }

  /** What the carried list holds behind an id, before it is known what the listing was. */
  lemma CarriedBehind(b: Option<Instant>, seen: seq<Id>, pinnedSeen: seq<Id>, page: seq<Keyed>, id: Id)
    requires page != [] && Upto(page, page[|page| - 1].at) && PinnedTogether(page, b)
    requires id in Carried(b, seen, pinnedSeen, page) && NoDup(Carried(b, seen, pinnedSeen, page))
    ensures
      var newest := page[|page| - 1].at;
      Behind(Carried(b, seen, pinnedSeen, page), id) ==
        if HoldsAtNewest(page, id, newest) then LowerAt(page, newest, id)
        else if b == Some(newest) then Behind(Distinct(seen), id) + IdsAt(page, newest)
        else if HoldsPinned(page, id) then HigherPinned(page, id) + IdsAt(page, newest)
        else Behind(pinnedSeen, id) + PinnedOn(page) + IdsAt(page, newest)
  {
    var newest := page[|page| - 1].at;
    var last := NewestIds(page, newest);
    NewestMembers(page, newest);
    PinnedMembers(page);
    NewestSet(page, newest);
    PinnedOnIs(page);
    var first := if b == Some(newest) then Distinct(seen) else pinnedSeen + PinnedIds(page);
    assert Carried(b, seen, pinnedSeen, page) == first + last;
    BehindJoin(first, last, id);
    PartsApart(first, last);
    if HoldsAtNewest(page, id, newest) {
      BehindNewest(page, newest, id);
    } else if b != Some(newest) {
      BehindJoin(pinnedSeen, PinnedIds(page), id);
      PartsApart(pinnedSeen, PinnedIds(page));
      if HoldsPinned(page, id) {
        BehindPinned(page, b, id);
      }
    }
  }

  lemma PartsApart(a: seq<Id>, b: seq<Id>)
    requires NoDup(a + b)
    ensures NoDup(a) && NoDup(b) && forall x :: x in a ==> x !in b
  {
    var ab := a + b;
    forall i, j | 0 <= i < j < |a| ensures a[i] != a[j] {
      assert ab[i] != ab[j];
    }
    forall i, j | 0 <= i < j < |b| ensures b[i] != b[j] {
      assert ab[|a| + i] != ab[|a| + j];
    }
    forall i, j | 0 <= i < |a| && 0 <= j < |b| ensures a[i] != b[j] {
      assert ab[i] != ab[|a| + j];
    }
  }

  lemma PageShape(fetched: seq<Item>, b: Option<Instant>, seen: seq<Id>, p: Instant, m: nat)
    requires IsPage(fetched, b, seen, p, m)
    ensures
      var page := PageOf(fetched, b, seen, p, m);
      && Upto(page, page[m - 1].at) && PinnedTogether(page, b)
      && forall k :: k in page ==> (exists i :: 0 <= i < |fetched| && k == KeyOf(fetched[i], b, p)) && IsNew(k, b, seen)
  {
    ChronologicalIsFresh(fetched, b, seen, p);
    PageSplit(Chronological(fetched, b, seen, p), m);
  }

  /** What a page leaves behind an id in the cursor, before the cap, is what outlasts it. */
  lemma RememberedBehind(fetched: seq<Item>, b: Option<Instant>, seen: seq<Id>, p: Instant, m: nat, id: Id)
    requires IsPage(fetched, b, seen, p, m) && id in Remembered(fetched, b, seen, p, m)
    ensures Behind(Remembered(fetched, b, seen, p, m), id)
      == Outlasting(fetched, b, seen, PageOf(fetched, b, seen, p, m), id)
  {
    var page := PageOf(fetched, b, seen, p, m);
    PageShape(fetched, b, seen, p, m);
    RememberedNoDup(fetched, b, seen, p, m);
    CarriedBehind(b, seen, PinnedSeen(fetched, b, seen, p), page, id);
    RememberedIds(fetched, b, seen, p, m, id);
    if !HoldsAtNewest(page, id, page[m - 1].at) && b != Some(page[m - 1].at) && !HoldsPinned(page, id) {
      BehindPinnedSeen(fetched, b, seen, p, id);
    }
  }

  // ---- what comes again ----

  /** The cursor has the id to keep: delivered at the new boundary or pinned, or remembered and still able to match. */
  ghost predicate ToKeep(fetched: seq<Item>, b: Option<Instant>, seen: seq<Id>, page: seq<Keyed>, id: Id)
    requires page != []
  {
    var newest := page[|page| - 1].at;
    || HoldsAtNewest(page, id, newest)
    || (if b == Some(newest) then id in seen else HoldsPinned(page, id) || (b.Some? && PinnedBefore(fetched, seen, id)))
  }

  /** 500 ids or more outlast one the cursor has to keep. */
  ghost predicate Crowded(fetched: seq<Item>, b: Option<Instant>, seen: seq<Id>, page: seq<Keyed>, id: Id)
    requires page != []
  {
    ToKeep(fetched, b, seen, page, id) && |Outlasting(fetched, b, seen, page, id)| >= MAX_BOUNDARY_IDS
  }

  /** On a first poll an item without a stamp is delivered beside one stamped after the poll. */
  ghost predicate PassedBy(b: Option<Instant>, p: Instant, page: seq<Keyed>, item: Item) {
    b.None? && item.updatedAt.Unstamped? && exists k :: k in page && k.item.updatedAt.At? && k.at > p
  }

  lemma CutIffCrowdedOut(fetched: seq<Item>, b: Option<Instant>, seen: seq<Id>, p: Instant, m: nat, id: Id)
    requires IsPage(fetched, b, seen, p, m)
    ensures Cut(Remembered(fetched, b, seen, p, m), id)
      <==> Crowded(fetched, b, seen, PageOf(fetched, b, seen, p, m), id)
  {
    RememberedIds(fetched, b, seen, p, m, id);
    if id in Remembered(fetched, b, seen, p, m) {
      RememberedNoDup(fetched, b, seen, p, m);
      RememberedBehind(fetched, b, seen, p, m, id);
      CutIffCrowded(Remembered(fetched, b, seen, p, m), id);
    }
  }

  lemma PassedPollTimeIsPassedBy(fetched: seq<Item>, b: Option<Instant>, seen: seq<Id>, p: Instant, m: nat, i: nat)
    requires IsPage(fetched, b, seen, p, m) && i < |fetched|
    requires KeyOf(fetched[i], b, p) in PageOf(fetched, b, seen, p, m)
    ensures PassedPollTime(b, p, fetched[i], After(fetched, b, seen, p, m).t)
      <==> PassedBy(b, p, PageOf(fetched, b, seen, p, m), fetched[i])
  {
    var page := PageOf(fetched, b, seen, p, m);
    PageShape(fetched, b, seen, p, m);
    var k := KeyOf(fetched[i], b, p);
    assert k.at <= page[m - 1].at;
    assert page[m - 1] in page;
  }

  /** Nothing comes twice, exactly: a delivered item is new to the next poll if and only if it was passed by on a first
    * poll or crowded out.
    */
  lemma DeliveredIsSeen(fetched: seq<Item>, b: Option<Instant>, seen: seq<Id>, p: Instant, m: nat, i: nat)
    requires IsPage(fetched, b, seen, p, m) && i < |fetched|
    requires KeyOf(fetched[i], b, p) in PageOf(fetched, b, seen, p, m)
    ensures
      var page := PageOf(fetched, b, seen, p, m);
      NewUnder(fetched[i].id, fetched[i].updatedAt, After(fetched, b, seen, p, m))
      <==> PassedBy(b, p, page, fetched[i]) || Crowded(fetched, b, seen, page, fetched[i].id)
  {
    DeliveredNewIffCut(fetched, b, seen, p, m, i);
    PassedPollTimeIsPassedBy(fetched, b, seen, p, m, i);
    CutIffCrowdedOut(fetched, b, seen, p, m, fetched[i].id);
  }

  /** An item that was not new before a page is new after it if and only if it was crowded out. */
  lemma SeenStaysSeen(fetched: seq<Item>, b: Option<Instant>, seen: seq<Id>, p: Instant, m: nat, i: nat)
    requires IsPage(fetched, b, seen, p, m) && i < |fetched| && SeenAtBoundary(fetched[i], b, seen)
    requires !IsNew(KeyOf(fetched[i], b, p), b, seen)
    ensures NewUnder(fetched[i].id, fetched[i].updatedAt, After(fetched, b, seen, p, m))
      <==> Crowded(fetched, b, seen, PageOf(fetched, b, seen, p, m), fetched[i].id)
  {
    SeenNewIffCut(fetched, b, seen, p, m, i);
    CutIffCrowdedOut(fetched, b, seen, p, m, fetched[i].id);
  }

  /** A listed item the page delivered, or that was not new, is to be delivered again. */
  ghost predicate ComesAgain(
      fetched: seq<Item>, b: Option<Instant>, seen: seq<Id>, p: Instant, page: seq<Keyed>, i: nat)
    requires Readable(fetched) && page != [] && i < |fetched|
  {
    var k := KeyOf(fetched[i], b, p);
    || (k in page && PassedBy(b, p, page, fetched[i]))
    || ((k in page || !IsNew(k, b, seen)) && Crowded(fetched, b, seen, page, fetched[i].id))
  }

  /** After a page, a listed item is new exactly when it stayed behind or comes again. */
  lemma NewAfterPage(fetched: seq<Item>, b: Option<Instant>, seen: seq<Id>, p: Instant, m: nat, i: nat)
    requires IsPage(fetched, b, seen, p, m) && i < |fetched| && SeenAtBoundary(fetched[i], b, seen)
    ensures
      var page, k := PageOf(fetched, b, seen, p, m), KeyOf(fetched[i], b, p);
      NewUnder(fetched[i].id, fetched[i].updatedAt, After(fetched, b, seen, p, m))
      <==> (IsNew(k, b, seen) && k !in page) || ComesAgain(fetched, b, seen, p, page, i)
  {
    var k := KeyOf(fetched[i], b, p);
    if k in PageOf(fetched, b, seen, p, m) {
      DeliveredIsSeen(fetched, b, seen, p, m, i);
    } else if IsNew(k, b, seen) {
      LeftBehindStaysNew(fetched, b, seen, p, m, i);
    } else {
      SeenStaysSeen(fetched, b, seen, p, m, i);
    }
  }
}
