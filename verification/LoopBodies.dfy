/** Which loop bodies can run: `loopBodyGraph` and `loopStructureError` (packages/shared/src/workflow-graph.ts). */
module LoopBodies {
  import opened Wrappers
  import opened Counting
  import opened Graph
  import opened Loops

  // ---- members and the edges among them ----

  function BodyOf(n: Node): seq<Id> {
    if n.kind.LoopStep? then n.kind.bodyNodeIds else []
  }

  /** The ones among the first `n` body ids that the loop owns, in the order it lists them. */
  function MemberIds(nodes: seq<Node>, loop: Id, body: seq<Id>, n: nat): seq<Id>
    requires n <= |body|
  {
    if n == 0 then []
    else if OwnerOf(nodes, body[n - 1]) == Some(loop) then MemberIds(nodes, loop, body, n - 1) + [body[n - 1]]
    else MemberIds(nodes, loop, body, n - 1)
  }

  function MembersOf(nodes: seq<Node>, loop: Node): seq<Id> {
    MemberIds(nodes, loop.id, BodyOf(loop), |BodyOf(loop)|)
  }

  /** The ones among the first `n` edges that run between members. */
  function Inner(edges: seq<Edge>, n: nat, ids: set<Id>): seq<Edge>
    requires n <= |edges|
  {
    if n == 0 then []
    else if edges[n - 1].source in ids && edges[n - 1].target in ids then Inner(edges, n - 1, ids) + [edges[n - 1]]
    else Inner(edges, n - 1, ids)
  }

  /** A body without inner edges runs as a chain, in the order the loop lists it. */
  function Chain(members: seq<Id>): seq<Edge>
    requires members != []
  {
    seq(|members| - 1, i requires 0 <= i < |members| - 1 =>
      Edge(members[i].name + "->" + members[i + 1].name + ":chain", members[i], members[i + 1], NoBranch))
  }

  function BodyEdges(members: seq<Id>, edges: seq<Edge>): seq<Edge> {
    var inner := Inner(edges, |edges|, ToSet(members));
    if inner == [] && |members| > 1 then Chain(members) else inner
  }

  predicate Fed(edges: seq<Edge>, id: Id) {
    exists e :: e in edges && e.target == id
  }

  /** The ones among the first `n` members that no inner edge feeds, in order. */
  function Unfed(members: seq<Id>, edges: seq<Edge>, n: nat): seq<Id>
    requires n <= |members|
  {
    if n == 0 then []
    else if Fed(edges, members[n - 1]) then Unfed(members, edges, n - 1)
    else Unfed(members, edges, n - 1) + [members[n - 1]]
  }

  method LoopBodyGraph(nodes: seq<Node>, edges: seq<Edge>, loop: Node)
      returns (members: seq<Id>, inner: seq<Edge>, entries: seq<Id>)
    ensures members == MembersOf(nodes, loop)
    ensures inner == BodyEdges(members, edges)
    ensures entries == Unfed(members, inner, |members|)
  {
    var owners := LoopBodyOwners(nodes);
    var body := BodyOf(loop);
    members := [];
    for i := 0 to |body|
      invariant members == MemberIds(nodes, loop.id, body, i)
    {
      assert OwnerOf(nodes, body[i]) == if body[i] in owners then Some(owners[body[i]]) else None;
      if body[i] in owners && owners[body[i]] == loop.id {
        members := members + [body[i]];
      }
    }
    inner := InnerEdges(edges, ToSet(members));
    if inner == [] && |members| > 1 {
      inner := Chain(members);
    }
    entries := [];
    for i := 0 to |members|
      invariant entries == Unfed(members, inner, i)
    {
      if !Fed(inner, members[i]) {
        entries := entries + [members[i]];
      }
    }
  }

  method InnerEdges(edges: seq<Edge>, ids: set<Id>) returns (inner: seq<Edge>)
    ensures inner == Inner(edges, |edges|, ids)
  {
    inner := [];
    for i := 0 to |edges|
      invariant inner == Inner(edges, i, ids)
    {
      if edges[i].source in ids && edges[i].target in ids {
        inner := inner + [edges[i]];
      }
    }
  }

  lemma {:induction false} MembersOwned(nodes: seq<Node>, loop: Id, body: seq<Id>, n: nat)
    requires n <= |body|
    ensures forall id :: id in MemberIds(nodes, loop, body, n) <==> id in body[..n] && OwnerOf(nodes, id) == Some(loop)
  {
    if n > 0 {
      MembersOwned(nodes, loop, body, n - 1);
      assert body[..n] == body[..n - 1] + [body[n - 1]];
    }
  }

  lemma {:induction false} InnerHolds(edges: seq<Edge>, n: nat, ids: set<Id>)
    requires n <= |edges|
    ensures forall e :: e in Inner(edges, n, ids) <==> e in edges[..n] && e.source in ids && e.target in ids
  {
    if n > 0 {
      InnerHolds(edges, n - 1, ids);
      assert edges[..n] == edges[..n - 1] + [edges[n - 1]];
    }
  }

  ghost predicate Within(edges: seq<Edge>, ids: set<Id>) {
    forall e :: e in edges ==> e.source in ids && e.target in ids
  }

  lemma BodyEdgesWithin(members: seq<Id>, edges: seq<Edge>)
    ensures Within(BodyEdges(members, edges), ToSet(members))
  {
    InnerHolds(edges, |edges|, ToSet(members));
  }

  lemma {:induction false} UnfedHolds(members: seq<Id>, edges: seq<Edge>, n: nat)
    requires n <= |members|
    ensures forall id :: id in Unfed(members, edges, n) <==> id in members[..n] && !Fed(edges, id)
  {
    if n > 0 {
      UnfedHolds(members, edges, n - 1);
      assert members[..n] == members[..n - 1] + [members[n - 1]];
    }
  }

  // ---- cycles ----

  ghost predicate Acyclic(arcs: Arcs) {
    forall w :: Walk(arcs, w) && |w| > 1 ==> w[0] != w[|w| - 1]
  }

  ghost predicate FedFrom(arcs: Arcs, rest: set<Id>, y: Id) {
    exists x :: x in rest && (x, y) in arcs
  }

  ghost predicate EachIsFed(arcs: Arcs, rest: set<Id>) {
    forall y {:trigger FedFrom(arcs, rest, y)} :: y in rest ==> FedFrom(arcs, rest, y)
  }

  /** Walking backwards among steps that are all fed never has to stop. */
  lemma {:induction false} BackWalk(arcs: Arcs, rest: set<Id>, start: Id, n: nat) returns (w: seq<Id>)
    requires start in rest && EachIsFed(arcs, rest)
    ensures Walk(arcs, w) && |w| == n + 1 && forall x :: x in w ==> x in rest
  {
    if n == 0 {
      w := [start];
    } else {
      var v := BackWalk(arcs, rest, start, n - 1);
      assert v[0] in rest && FedFrom(arcs, rest, v[0]);
      var x :| x in rest && (x, v[0]) in arcs;
      w := [x] + v;
    }
  }

  lemma FedAllRoundIsCycle(arcs: Arcs, rest: set<Id>)
    requires rest != {} && EachIsFed(arcs, rest)
    ensures !Acyclic(arcs)
  {
    var start :| start in rest;
    var w := BackWalk(arcs, rest, start, |rest|);
    if NoDup(w) {
      NoDupBounded(w, rest);
      assert false;
    }
    var i, j :| 0 <= i < j < |w| && w[i] == w[j];
    ClosedPart(arcs, w, i, j);
  }

  lemma ClosedPart(arcs: Arcs, w: seq<Id>, i: nat, j: nat)
    requires Walk(arcs, w) && i < j < |w| && w[i] == w[j]
    ensures !Acyclic(arcs)
  {
    var c := w[i..j + 1];
    forall k | 0 <= k < |c| - 1 ensures (c[k], c[k + 1]) in arcs {
      assert (w[i + k], w[i + k + 1]) in arcs;
    }
    assert Walk(arcs, c) && |c| > 1 && c[0] == c[|c| - 1];
  }

  /** Every arc into a listed step comes from a step listed before it. */
  ghost predicate Topological(arcs: Arcs, list: seq<Id>) {
    forall x, j :: 0 <= j < |list| && (x, list[j]) in arcs ==> exists i :: 0 <= i < j && list[i] == x
  }

  lemma {:induction false} WalkClimbs(arcs: Arcs, list: seq<Id>, w: seq<Id>, p: nat) returns (q: nat)
    requires Topological(arcs, list) && NoDup(list) && Walk(arcs, w) && |w| > 1 && p < |list| && list[p] == w[|w| - 1]
    ensures q < p && list[q] == w[0]
  {
    var n := |w| - 1;
    assert (w[n - 1], list[p]) in arcs;
    var i :| 0 <= i < p && list[i] == w[n - 1];
    if n == 1 {
      q := i;
    } else {
      q := WalkClimbs(arcs, list, w[..n], i);
    }
  }

  lemma TopologicalIsAcyclic(arcs: Arcs, list: seq<Id>)
    requires Topological(arcs, list) && NoDup(list) && forall a :: a in arcs ==> a.1 in list
    ensures Acyclic(arcs)
  {
    forall w | Walk(arcs, w) && |w| > 1 ensures w[0] != w[|w| - 1] {
      var n := |w| - 1;
      assert (w[n - 1], w[n]) in arcs;
      var p :| 0 <= p < |list| && list[p] == w[n];
      var q := WalkClimbs(arcs, list, w, p);
    }
  }

  // ---- Kahn's algorithm ----

  /** How many of the first `n` edges into `x` start at a step not done. */
  function Pending(inner: seq<Edge>, n: nat, done: set<Id>, x: Id): nat
    requires n <= |inner|
  {
    if n == 0 then 0
    else if inner[n - 1].target == x && inner[n - 1].source !in done then Pending(inner, n - 1, done, x) + 1
    else Pending(inner, n - 1, done, x)
  }

  /** The same while `id` is being visited and its first `k` edges have been counted down. */
  function Left(inner: seq<Edge>, n: nat, done: set<Id>, id: Id, k: nat, x: Id): nat
    requires n <= |inner|
  {
    if n == 0 then 0
    else if inner[n - 1].target == x && inner[n - 1].source !in done && !(inner[n - 1].source == id && n - 1 < k) then
      Left(inner, n - 1, done, id, k, x) + 1
    else Left(inner, n - 1, done, id, k, x)
  }

  lemma {:induction false} LeftStarts(inner: seq<Edge>, n: nat, done: set<Id>, id: Id, x: Id)
    requires n <= |inner|
    ensures Left(inner, n, done, id, 0, x) == Pending(inner, n, done, x)
  {
    if n > 0 {
      LeftStarts(inner, n - 1, done, id, x);
    }
  }

  lemma {:induction false} LeftEnds(inner: seq<Edge>, n: nat, done: set<Id>, id: Id, k: nat, x: Id)
    requires n <= |inner| && n <= k
    ensures Left(inner, n, done, id, k, x) == Pending(inner, n, done + {id}, x)
  {
    if n > 0 {
      LeftEnds(inner, n - 1, done, id, k, x);
    }
  }

  lemma {:induction false} LeftStep(inner: seq<Edge>, n: nat, done: set<Id>, id: Id, k: nat, x: Id)
    requires n <= |inner| && k < |inner| && id !in done
    ensures Left(inner, n, done, id, k, x) ==
      if k < n && inner[k].source == id && inner[k].target == x then Left(inner, n, done, id, k + 1, x) + 1
      else Left(inner, n, done, id, k + 1, x)
  {
    if n > 0 {
      LeftStep(inner, n - 1, done, id, k, x);
    }
  }

  lemma {:induction false} PendingZero(inner: seq<Edge>, n: nat, done: set<Id>, x: Id)
    requires n <= |inner|
    ensures Pending(inner, n, done, x) == 0 <==> forall i ::
      0 <= i < n && inner[i].target == x ==> inner[i].source in done
  {
    if n > 0 {
      PendingZero(inner, n - 1, done, x);
    }
  }

  type Degrees = map<Id, nat>

  ghost predicate Counted(indegree: Degrees, ids: set<Id>, inner: seq<Edge>, n: nat, done: set<Id>)
    requires n <= |inner|
  {
    indegree.Keys == ids && forall x :: x in ids ==> indegree[x] == Pending(inner, n, done, x)
  }

  method InDegrees(members: seq<Id>, inner: seq<Edge>) returns (indegree: Degrees)
    requires Within(inner, ToSet(members))
    ensures Counted(indegree, ToSet(members), inner, |inner|, {})
  {
    indegree := map m | m in ToSet(members) :: 0;
    for i := 0 to |inner|
      invariant Counted(indegree, ToSet(members), inner, i, {})
    {
      var to := inner[i].target;
      assert inner[i] in inner;
      indegree := indegree[to := indegree[to] + 1];
    }
  }

  method Unblocked(members: seq<Id>, indegree: Degrees) returns (queue: seq<Id>)
    requires indegree.Keys == ToSet(members)
    ensures NoDup(queue) && forall x :: x in queue <==> x in indegree && indegree[x] == 0
  {
    queue := [];
    for i := 0 to |members|
      invariant NoDup(queue) && forall x :: x in queue <==> x in members[..i] && x in indegree && indegree[x] == 0
    {
      assert members[..i + 1] == members[..i] + [members[i]];
      assert members[i] in ToSet(members);
      if indegree[members[i]] == 0 && members[i] !in queue {
        JoinNoDup(queue, [members[i]]);
        queue := queue + [members[i]];
      }
    }
    assert members[..|members|] == members;
    forall x | x in indegree ensures x in members {
      assert x in ToSet(members);
    }
  }

  /** While `id` is visited: the counts, and what is done or queued are the steps nothing pending feeds. */
  ghost predicate Visiting(
      ids: set<Id>, inner: seq<Edge>, done: seq<Id>, id: Id, k: nat, indegree: Degrees, queue: seq<Id>) {
    && indegree.Keys == ids
    && (forall x :: x in ids ==> indegree[x] == Left(inner, |inner|, ToSet(done), id, k, x))
    && NoDup(done + [id] + queue)
    && (forall x :: x in done + [id] + queue <==> x in ids && indegree[x] == 0)
  }

  lemma Pushed(done: seq<Id>, id: Id, queue: seq<Id>, x: Id)
    requires NoDup(done + [id] + queue) && x !in done + [id] + queue
    ensures NoDup(done + [id] + (queue + [x]))
    ensures forall y :: y in done + [id] + (queue + [x]) <==> y in done + [id] + queue || y == x
  {
    JoinNoDup(done + [id] + queue, [x]);
    assert done + [id] + (queue + [x]) == done + [id] + queue + [x];
  }

  lemma VisitingStep(ids: set<Id>, inner: seq<Edge>, done: seq<Id>, id: Id, k: nat, indegree: Degrees, queue: seq<Id>)
    requires Visiting(ids, inner, done, id, k, indegree, queue) && k < |inner| && Within(inner, ids)
    ensures inner[k].source != id ==> Visiting(ids, inner, done, id, k + 1, indegree, queue)
    ensures inner[k].source == id ==>
      var to := inner[k].target;
      && to in indegree && indegree[to] > 0
      && Visiting(ids, inner, done, id, k + 1, indegree[to := indegree[to] - 1],
                  if indegree[to] == 1 then queue + [to] else queue)
  {
    assert inner[k] in inner;
    forall x ensures inner[k].source == id && inner[k].target == x ==>
      Left(inner, |inner|, ToSet(done), id, k, x) == Left(inner, |inner|, ToSet(done), id, k + 1, x) + 1
    ensures !(inner[k].source == id && inner[k].target == x) ==>
      Left(inner, |inner|, ToSet(done), id, k, x) == Left(inner, |inner|, ToSet(done), id, k + 1, x)
    {
      IdNotDone(done, id, queue);
      LeftStep(inner, |inner|, ToSet(done), id, k, x);
    }
    if inner[k].source == id {
      var to := inner[k].target;
      assert indegree[to] > 0;
      assert to !in done + [id] + queue;
      if indegree[to] == 1 {
        Pushed(done, id, queue, to);
      }
    }
  }

  lemma IdNotDone(done: seq<Id>, id: Id, queue: seq<Id>)
    requires NoDup(done + [id] + queue)
    ensures id !in ToSet(done)
  {
    assert (done + [id] + queue)[|done|] == id;
    forall i | 0 <= i < |done| ensures done[i] != id {
      assert (done + [id] + queue)[i] == done[i];
    }
  }

  /** The inner loop: the edges of the visited step are counted down. */
  method Visit(
      ghost ids: set<Id>, inner: seq<Edge>, ghost done: seq<Id>, id: Id, before: Degrees, queued: seq<Id>)
      returns (indegree: Degrees, queue: seq<Id>)
    requires Within(inner, ids) && Visiting(ids, inner, done, id, 0, before, queued)
    ensures Visiting(ids, inner, done, id, |inner|, indegree, queue)
  {
    indegree, queue := before, queued;
    for k := 0 to |inner|
      invariant Visiting(ids, inner, done, id, k, indegree, queue)
    {
      VisitingStep(ids, inner, done, id, k, indegree, queue);
      if inner[k].source == id {
        var to := inner[k].target;
        var d := indegree[to] - 1;
        indegree := indegree[to := d];
        if d == 0 {
          queue := queue + [to];
        }
      }
    }
  }

  /** Between visits. */
  ghost predicate Sorting(ids: set<Id>, inner: seq<Edge>, done: seq<Id>, indegree: Degrees, queue: seq<Id>) {
    && Counted(indegree, ids, inner, |inner|, ToSet(done))
    && NoDup(done + queue)
    && (forall x :: x in done + queue <==> x in ids && indegree[x] == 0)
    && Topological(ArcsOf(inner), done)
  }

  lemma VisitStarts(ids: set<Id>, inner: seq<Edge>, done: seq<Id>, indegree: Degrees, queue: seq<Id>)
    requires Sorting(ids, inner, done, indegree, queue) && queue != []
    ensures Visiting(ids, inner, done, queue[0], 0, indegree, queue[1..])
  {
    assert done + [queue[0]] + queue[1..] == done + queue;
    forall x ensures Left(inner, |inner|, ToSet(done), queue[0], 0, x) == Pending(inner, |inner|, ToSet(done), x) {
      LeftStarts(inner, |inner|, ToSet(done), queue[0], x);
    }
  }

  /** A step with nothing pending goes after everything that feeds it. */
  lemma DoneMore(inner: seq<Edge>, done: seq<Id>, id: Id)
    requires Topological(ArcsOf(inner), done) && Pending(inner, |inner|, ToSet(done), id) == 0
    ensures Topological(ArcsOf(inner), done + [id])
  {
    PendingZero(inner, |inner|, ToSet(done), id);
    var list := done + [id];
    forall x, j | 0 <= j < |list| && (x, list[j]) in ArcsOf(inner) ensures exists i :: 0 <= i < j && list[i] == x {
      if j < |done| {
        assert (x, done[j]) in ArcsOf(inner);
        var i :| 0 <= i < j && done[i] == x;
        assert list[i] == x;
      } else {
        ArcIsEdge(inner, x, id);
        assert x in ToSet(done);
        var i :| 0 <= i < |done| && done[i] == x;
        assert list[i] == x;
      }
    }
  }

  lemma VisitEnds(ids: set<Id>, inner: seq<Edge>, done: seq<Id>, id: Id, indegree: Degrees, queue: seq<Id>)
    requires Visiting(ids, inner, done, id, |inner|, indegree, queue) && Topological(ArcsOf(inner), done + [id])
    ensures Sorting(ids, inner, done + [id], indegree, queue)
  {
    ToSetMore(done, id);
    forall x
      ensures Left(inner, |inner|, ToSet(done), id, |inner|, x) == Pending(inner, |inner|, ToSet(done + [id]), x) {
      LeftEnds(inner, |inner|, ToSet(done), id, |inner|, x);
    }
  }

  lemma SortingRoom(ids: set<Id>, inner: seq<Edge>, done: seq<Id>, indegree: Degrees, queue: seq<Id>)
    requires Sorting(ids, inner, done, indegree, queue)
    ensures |done| + |queue| <= |ids|
  {
    NoDupBounded(done + queue, ids);
  }

  method CountVisited(members: seq<Id>, inner: seq<Edge>) returns (visited: nat)
    requires Within(inner, ToSet(members))
    ensures visited < |members| <==> !(NoDup(members) && Acyclic(ArcsOf(inner)))
  {
    ghost var ids := ToSet(members);
    var indegree := InDegrees(members, inner);
    var queue := Unblocked(members, indegree);
    ghost var done: seq<Id> := [];
    assert done + queue == queue && ToSet(done) == {};
    visited := 0;
    while queue != []
      invariant Sorting(ids, inner, done, indegree, queue) && visited == |done|
      decreases |ids| - |done|
    {
      var id := queue[0];
      visited := visited + 1;
      SortingRoom(ids, inner, done, indegree, queue);
      assert id in done + queue;
      DoneMore(inner, done, id);
      VisitStarts(ids, inner, done, indegree, queue);
      indegree, queue := Visit(ids, inner, done, id, indegree, queue[1..]);
      VisitEnds(ids, inner, done, id, indegree, queue);
      done := done + [id];
    }
    KahnEnds(members, inner, done, indegree);
  }

  lemma SameSizeSubset(a: set<Id>, b: set<Id>)
    requires a <= b && |a| == |b|
    ensures a == b
  {
    if x :| x in b && x !in a {
      SubsetSize(a + {x}, b);
    }
  }

  /** What is left over when the queue runs dry is fed all round. */
  lemma LeftOverIsFed(ids: set<Id>, inner: seq<Edge>, done: seq<Id>, indegree: Degrees)
    requires Sorting(ids, inner, done, indegree, []) && Within(inner, ids)
    ensures EachIsFed(ArcsOf(inner), ids - ToSet(done))
  {
    forall y | y in ids - ToSet(done) ensures FedFrom(ArcsOf(inner), ids - ToSet(done), y) {
      assert done + [] == done;
      assert y !in done;
      PendingZero(inner, |inner|, ToSet(done), y);
      var i :| 0 <= i < |inner| && inner[i].target == y && inner[i].source !in ToSet(done);
      assert inner[i] in inner;
      ArcIsEdge(inner, inner[i].source, y);
    }
  }

  lemma KahnEnds(members: seq<Id>, inner: seq<Edge>, done: seq<Id>, indegree: Degrees)
    requires Within(inner, ToSet(members)) && Sorting(ToSet(members), inner, done, indegree, [])
    ensures |done| < |members| <==> !(NoDup(members) && Acyclic(ArcsOf(inner)))
  {
    var ids := ToSet(members);
    assert done + [] == done;
    RepeatsShrink(members);
    RepeatsShrink(done);
    assert ToSet(done) <= ids;
    SubsetSize(ToSet(done), ids);
    if ToSet(done) == ids {
      forall a | a in ArcsOf(inner) ensures a.1 in done {
        assert a.1 in ToSet(done);
      }
      TopologicalIsAcyclic(ArcsOf(inner), done);
    } else {
      if |ToSet(done)| == |ids| {
        SameSizeSubset(ToSet(done), ids);
      }
      LeftOverIsFed(ids, inner, done, indegree);
      var x :| x in ids && x !in ToSet(done);
      assert x in ids - ToSet(done);
      FedAllRoundIsCycle(ArcsOf(inner), ids - ToSet(done));
    }
  }

  // ---- why a body cannot run ----

  datatype StructureError = NoBody | HoldsGate(id: Id) | HoldsLoop(id: Id) | HoldsTrigger(id: Id)
    | FedFromOutside(source: Id) | BranchesOut | Cyclic

  function KindError(n: Node): Option<StructureError> {
    match n.kind
    case ApprovalStep => Some(HoldsGate(n.id))
    case LoopStep(_) => Some(HoldsLoop(n.id))
    case TriggerStep => Some(HoldsTrigger(n.id))
    case PlainStep => None
  }

  predicate FeedsIn(e: Edge, ids: set<Id>, loop: Id) {
    e.target in ids && e.source !in ids && e.source != loop
  }

  predicate LabelledOut(e: Edge, ids: set<Id>) {
    e.source in ids && e.target !in ids && e.branch != NoBranch
  }

  function EdgeError(e: Edge, ids: set<Id>, loop: Id): Option<StructureError> {
    if FeedsIn(e, ids, loop) then Some(FedFromOutside(e.source))
    else if LabelledOut(e, ids) then Some(BranchesOut)
    else None
  }

  function FirstKindError(m: map<Id, Node>, members: seq<Id>, n: nat): Option<StructureError>
    requires n <= |members| && forall x :: x in members ==> x in m
  {
    if n == 0 then None
    else
      var before := FirstKindError(m, members, n - 1);
      if before.Some? then before else KindError(m[members[n - 1]])
  }

  function FirstEdgeError(edges: seq<Edge>, ids: set<Id>, loop: Id, n: nat): Option<StructureError>
    requires n <= |edges|
  {
    if n == 0 then None
    else
      var before := FirstEdgeError(edges, ids, loop, n - 1);
      if before.Some? then before else EdgeError(edges[n - 1], ids, loop)
  }

  lemma MembersExist(nodes: seq<Node>, loop: Node)
    ensures forall x :: x in MembersOf(nodes, loop) ==> x in ById(nodes) && OwnerOf(nodes, x) == Some(loop.id)
  {
    MembersOwned(nodes, loop.id, BodyOf(loop), |BodyOf(loop)|);
  }

  /** The first reason, members before edges before cycles. */
  ghost function StructureOutcome(nodes: seq<Node>, edges: seq<Edge>, loop: Node): Option<StructureError> {
    MembersExist(nodes, loop);
    var members := MembersOf(nodes, loop);
    var kinds := FirstKindError(ById(nodes), members, |members|);
    var outside := FirstEdgeError(edges, ToSet(members), loop.id, |edges|);
    if members == [] then Some(NoBody)
    else if kinds.Some? then kinds
    else if outside.Some? then outside
    else if NoDup(members) && Acyclic(ArcsOf(BodyEdges(members, edges))) then None
    else Some(Cyclic)
  }

  method KindErrorIn(byId: map<Id, Node>, members: seq<Id>) returns (error: Option<StructureError>)
    requires forall x :: x in members ==> x in byId
    ensures error == FirstKindError(byId, members, |members|)
  {
    for i := 0 to |members|
      invariant FirstKindError(byId, members, i) == None
    {
      if KindError(byId[members[i]]).Some? {
        FirstKindErrorStays(byId, members, i + 1, |members|);
        return KindError(byId[members[i]]);
      }
    }
    error := None;
  }

  method EdgeErrorIn(edges: seq<Edge>, ids: set<Id>, loop: Id) returns (error: Option<StructureError>)
    ensures error == FirstEdgeError(edges, ids, loop, |edges|)
  {
    for i := 0 to |edges|
      invariant FirstEdgeError(edges, ids, loop, i) == None
    {
      if EdgeError(edges[i], ids, loop).Some? {
        FirstEdgeErrorStays(edges, ids, loop, i + 1, |edges|);
        return EdgeError(edges[i], ids, loop);
      }
    }
    error := None;
  }

  method LoopStructureError(nodes: seq<Node>, edges: seq<Edge>, loop: Node) returns (error: Option<StructureError>)
    ensures error == StructureOutcome(nodes, edges, loop)
  {
    MembersExist(nodes, loop);
    var members, inner, entries := LoopBodyGraph(nodes, edges, loop);
    if members == [] {
      return Some(NoBody);
    }
    error := KindErrorIn(ById(nodes), members);
    if error.Some? {
      return;
    }
    error := EdgeErrorIn(edges, ToSet(members), loop.id);
    if error.Some? {
      return;
    }
    BodyEdgesWithin(members, edges);
    var visited := CountVisited(members, inner);
    error := if visited < |members| then Some(Cyclic) else None;
  }

  lemma {:induction false} FirstKindErrorStays(m: map<Id, Node>, members: seq<Id>, i: nat, n: nat)
    requires i <= n <= |members| && forall x :: x in members ==> x in m
    requires FirstKindError(m, members, i).Some?
    ensures FirstKindError(m, members, n) == FirstKindError(m, members, i)
  {
    if i < n {
      FirstKindErrorStays(m, members, i, n - 1);
    }
  }

  lemma {:induction false} FirstEdgeErrorStays(edges: seq<Edge>, ids: set<Id>, loop: Id, i: nat, n: nat)
    requires i <= n <= |edges| && FirstEdgeError(edges, ids, loop, i).Some?
    ensures FirstEdgeError(edges, ids, loop, n) == FirstEdgeError(edges, ids, loop, i)
  {
    if i < n {
      FirstEdgeErrorStays(edges, ids, loop, i, n - 1);
    }
  }

  // ---- what is accepted ----

  ghost predicate PlainMembers(nodes: seq<Node>, members: seq<Id>) {
    forall id :: id in members ==> id in ById(nodes) && ById(nodes)[id].kind.PlainStep?
  }

  ghost predicate EnteredOnlyByLoop(edges: seq<Edge>, ids: set<Id>, loop: Id) {
    forall e :: e in edges && e.target in ids ==> e.source in ids || e.source == loop
  }

  ghost predicate NoLabelledExit(edges: seq<Edge>, ids: set<Id>) {
    forall e :: e in edges && e.source in ids && e.target !in ids ==> e.branch == NoBranch
  }

  ghost predicate BodyOk(nodes: seq<Node>, edges: seq<Edge>, loop: Node) {
    var members := MembersOf(nodes, loop);
    && members != [] && NoDup(members)
    && PlainMembers(nodes, members)
    && EnteredOnlyByLoop(edges, ToSet(members), loop.id)
    && NoLabelledExit(edges, ToSet(members))
    && Acyclic(ArcsOf(BodyEdges(members, edges)))
  }

  lemma {:induction false} NoKindError(m: map<Id, Node>, members: seq<Id>, n: nat)
    requires n <= |members| && forall x :: x in members ==> x in m
    ensures FirstKindError(m, members, n).None? <==> forall id :: id in members[..n] ==> m[id].kind.PlainStep?
  {
    if n > 0 {
      NoKindError(m, members, n - 1);
      assert members[..n] == members[..n - 1] + [members[n - 1]];
    }
  }

  lemma {:induction false} NoEdgeError(edges: seq<Edge>, ids: set<Id>, loop: Id, n: nat)
    requires n <= |edges|
    ensures FirstEdgeError(edges, ids, loop, n).None? <==> forall e ::
      e in edges[..n] ==> !FeedsIn(e, ids, loop) && !LabelledOut(e, ids)
  {
    if n > 0 {
      NoEdgeError(edges, ids, loop, n - 1);
      assert edges[..n] == edges[..n - 1] + [edges[n - 1]];
    }
  }

  /** A loop is accepted exactly when its body is fit to run. */
  lemma AcceptedIffBodyOk(nodes: seq<Node>, edges: seq<Edge>, loop: Node)
    ensures StructureOutcome(nodes, edges, loop) == None <==> BodyOk(nodes, edges, loop)
  {
    var members := MembersOf(nodes, loop);
    MembersExist(nodes, loop);
    NoKindError(ById(nodes), members, |members|);
    NoEdgeError(edges, ToSet(members), loop.id, |edges|);
    assert members[..|members|] == members && edges[..|edges|] == edges;
    assert (forall e :: e in edges ==> !FeedsIn(e, ToSet(members), loop.id) && !LabelledOut(e, ToSet(members)))
      <==> EnteredOnlyByLoop(edges, ToSet(members), loop.id) && NoLabelledExit(edges, ToSet(members));
  }

  /** A body that lists a step twice is turned away as cyclic even when nothing in it runs in a circle. */
  lemma RepeatedIdReadsAsCycle()
    ensures
      var a := Node(Id("a"), PlainStep);
      var loop := Node(Id("l"), LoopStep([Id("a"), Id("b"), Id("a")]));
      var nodes := [a, Node(Id("b"), PlainStep), loop];
      var edges := [Edge("1", Id("a"), Id("b"), NoBranch)];
      StructureOutcome(nodes, edges, loop) == Some(Cyclic) && Acyclic(ArcsOf(BodyEdges(MembersOf(nodes, loop), edges)))
  {
    var a, b := Node(Id("a"), PlainStep), Node(Id("b"), PlainStep);
    var loop := Node(Id("l"), LoopStep([a.id, b.id, a.id]));
    var edge := Edge("1", a.id, b.id, NoBranch);
    assert a.id.name[0] != b.id.name[0] && a.id.name[0] != loop.id.name[0] && b.id.name[0] != loop.id.name[0];
    RepeatedMembers(a, b, loop);
    RepeatedOutcome([a, b, loop], edge, loop);
  }

  lemma RepeatedMembers(a: Node, b: Node, loop: Node)
    requires a.id != b.id && b.id != loop.id && a.id != loop.id
    requires a.kind.PlainStep? && b.kind.PlainStep? && loop.kind == LoopStep([a.id, b.id, a.id])
    ensures
      var nodes := [a, b, loop];
      && MembersOf(nodes, loop) == [a.id, b.id, a.id]
      && ById(nodes) == map[a.id := a, b.id := b, loop.id := loop]
  {
    var nodes, body := [a, b, loop], [a.id, b.id, a.id];
    SmallById(a, b, loop);
    forall id | id == a.id || id == b.id ensures OwnerOf(nodes, id) == Some(loop.id) {
      assert FirstClaim(nodes, 1, id) == None;
      assert FirstClaim(nodes, 2, id) == None;
      assert Claims(nodes, loop, id);
    }
    assert MemberIds(nodes, loop.id, body, 1) == [a.id];
    assert MemberIds(nodes, loop.id, body, 2) == [a.id, b.id];
  }

  lemma RepeatedOutcome(nodes: seq<Node>, e: Edge, loop: Node)
    requires MembersOf(nodes, loop) == [e.source, e.target, e.source] && e.source != e.target
    requires PlainMembers(nodes, MembersOf(nodes, loop))
    ensures StructureOutcome(nodes, [e], loop) == Some(Cyclic)
    ensures Acyclic(ArcsOf(BodyEdges(MembersOf(nodes, loop), [e])))
  {
    var members := MembersOf(nodes, loop);
    assert members[0] == members[2];
    AcceptedIffBodyOk(nodes, [e], loop);
    MembersExist(nodes, loop);
    NoKindError(ById(nodes), members, |members|);
    assert e.source in ToSet(members) && e.target in ToSet(members);
    NoEdgeError([e], ToSet(members), loop.id, 1);
    InnerHolds([e], 1, ToSet(members));
    assert e in [e][..1];
    assert Inner([e], 0, ToSet(members)) == [];
    assert BodyEdges(members, [e]) == [e];
    TopologicalIsAcyclic(ArcsOf([e]), [e.source, e.target]);
  }

  lemma SmallById(a: Node, b: Node, c: Node)
    requires a.id != b.id && b.id != c.id && a.id != c.id
    ensures ById([a, b, c]) == map[a.id := a, b.id := b, c.id := c]
  {
    assert [a, b, c][..2] == [a, b] && [a, b][..1] == [a] && [a][..0] == [];
    assert ById([a]) == map[a.id := a];
    assert ById([a, b]) == map[a.id := a, b.id := b];
    assert ById([a, b, c]) == ById([a, b])[c.id := c];
  }

  /** Every member of an accepted body is reached from a member that no other feeds, where each pass starts. */
  lemma MembersReachedFromEntries(nodes: seq<Node>, edges: seq<Edge>, loop: Node, x: Id)
    requires BodyOk(nodes, edges, loop) && x in MembersOf(nodes, loop)
    ensures
      var members := MembersOf(nodes, loop);
      var inner := BodyEdges(members, edges);
      exists y :: y in Unfed(members, inner, |members|) && Reaches(ArcsOf(inner), y, x)
  {
    var members := MembersOf(nodes, loop);
    var inner := BodyEdges(members, edges);
    var arcs := ArcsOf(inner);
    BodyEdgesWithin(members, edges);
    UnfedHolds(members, inner, |members|);
    assert members[..|members|] == members;
    var above := set y | y in ToSet(members) && Reaches(arcs, y, x);
    ReachesSelf(arcs, x);
    assert x in above;
    if EachIsFed(arcs, above) {
      FedAllRoundIsCycle(arcs, above);
      assert false;
    }
    var y :| y in above && !FedFrom(arcs, above, y);
    if Fed(inner, y) {
      FedFromAbove(inner, ToSet(members), x, y);
    }
    assert y in Unfed(members, inner, |members|);
  }

  lemma FedFromAbove(inner: seq<Edge>, ids: set<Id>, x: Id, y: Id)
    requires Within(inner, ids) && Fed(inner, y) && Reaches(ArcsOf(inner), y, x)
    ensures FedFrom(ArcsOf(inner), (set z | z in ids && Reaches(ArcsOf(inner), z, x)), y)
  {
    var e :| e in inner && e.target == y;
    assert (e.source, y) in ArcsOf(inner);
    ReachesFrom(ArcsOf(inner), e.source, y, x);
  }

  lemma ReachesFrom(arcs: Arcs, a: Id, b: Id, c: Id)
    requires (a, b) in arcs && Reaches(arcs, b, c)
    ensures Reaches(arcs, a, c)
  {
    ReachesSelf(arcs, a);
    ReachesStep(arcs, a, a, b);
    ReachesJoin(arcs, a, b, c);
  }
}
