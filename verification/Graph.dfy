/** Walks in a workflow's graph, and the breadth-first closures over them:
  * `buildGraph`, `nodesBetween` (packages/shared/src/workflow-graph.ts) and `getAncestorNodes` (template-vars.ts).
  */
module Graph {
  import opened Counting

  /** A step id. */
  datatype Id = Id(name: string)

  datatype Branch = NoBranch | OnTrue | OnFalse

  datatype Edge = Edge(id: string, source: Id, target: Id, branch: Branch)

  type Arcs = set<(Id, Id)>

  function ArcsOf(edges: seq<Edge>): Arcs {
    set e | e in edges :: (e.source, e.target)
  }

  function Flip(arcs: Arcs): (r: Arcs)
    ensures forall x, y :: (x, y) in r <==> (y, x) in arcs
  {
    set a | a in arcs :: (a.1, a.0)
  }

  // ---- walks ----

  ghost predicate Walk(arcs: Arcs, w: seq<Id>) {
    w != [] && forall i :: 0 <= i < |w| - 1 ==> (w[i], w[i + 1]) in arcs
  }

  ghost predicate WalkBetween(arcs: Arcs, a: Id, b: Id, w: seq<Id>) {
    Walk(arcs, w) && w[0] == a && w[|w| - 1] == b
  }

  ghost predicate Reaches(arcs: Arcs, a: Id, b: Id) {
    exists w :: WalkBetween(arcs, a, b, w)
  }

  lemma ReachesSelf(arcs: Arcs, a: Id)
    ensures Reaches(arcs, a, a)
  {
    assert WalkBetween(arcs, a, a, [a]);
  }

  lemma ReachesStep(arcs: Arcs, a: Id, b: Id, c: Id)
    requires Reaches(arcs, a, b) && (b, c) in arcs
    ensures Reaches(arcs, a, c)
  {
    var w :| WalkBetween(arcs, a, b, w);
    assert WalkBetween(arcs, a, c, w + [c]);
  }

  lemma ReachesJoin(arcs: Arcs, a: Id, b: Id, c: Id)
    requires Reaches(arcs, a, b) && Reaches(arcs, b, c)
    ensures Reaches(arcs, a, c)
  {
    var v :| WalkBetween(arcs, a, b, v);
    var w :| WalkBetween(arcs, b, c, w);
    WalkJoin(arcs, v, w);
    assert WalkBetween(arcs, a, c, v + w[1..]);
  }

  lemma WalkJoin(arcs: Arcs, v: seq<Id>, w: seq<Id>)
    requires Walk(arcs, v) && Walk(arcs, w) && v[|v| - 1] == w[0]
    ensures Walk(arcs, v + w[1..]) && (v + w[1..])[|v + w[1..]| - 1] == w[|w| - 1]
  {
    var u := v + w[1..];
    forall i | 0 <= i < |u| - 1 ensures (u[i], u[i + 1]) in arcs {
      if i >= |v| - 1 {
        var j := i - (|v| - 1);
        assert u[i] == w[j] && u[i + 1] == w[j + 1];
      }
    }
  }

  lemma ReachesFlip(arcs: Arcs, a: Id, b: Id)
    requires Reaches(arcs, a, b)
    ensures Reaches(Flip(arcs), b, a)
  {
    var w :| WalkBetween(arcs, a, b, w);
    var n := |w|;
    var r := seq(n, i requires 0 <= i < n => w[n - 1 - i]);
    forall i | 0 <= i < n - 1 ensures (r[i], r[i + 1]) in Flip(arcs) {
      assert (w[n - 2 - i], w[n - 1 - i]) in arcs;
    }
    assert WalkBetween(Flip(arcs), b, a, r);
  }

  lemma FlipFlip(arcs: Arcs)
    ensures Flip(Flip(arcs)) == arcs
  {
    forall a | a in arcs ensures a in Flip(Flip(arcs)) {
      assert (a.1, a.0) in Flip(arcs);
    }
  }

  ghost predicate Closed(arcs: Arcs, s: set<Id>) {
    forall a :: a in arcs && a.0 in s ==> a.1 in s
  }

  /** A closed set holds everything its members reach. */
  lemma {:induction false} ClosedHolds(arcs: Arcs, s: set<Id>, w: seq<Id>)
    requires Closed(arcs, s) && Walk(arcs, w) && w[0] in s
    ensures w[|w| - 1] in s
  {
    if |w| > 1 {
      var n := |w| - 1;
      ClosedHolds(arcs, s, w[..n]);
      assert (w[n - 1], w[n]) in arcs;
    }
  }

  // ---- adjacency ----

  type Adjacency = map<Id, seq<Id>>

  function Neighbours(next: Adjacency, id: Id): seq<Id> {
    if id in next then next[id] else []
  }

  /** The lists name exactly the arcs. */
  ghost predicate Lists(next: Adjacency, arcs: Arcs) {
    forall a, b :: b in Neighbours(next, a) <==> (a, b) in arcs
  }

  /** The targets of the first `n` edges leaving `id`, in order. */
  function TargetsOf(edges: seq<Edge>, n: nat, id: Id): seq<Id>
    requires n <= |edges|
  {
    if n == 0 then []
    else if edges[n - 1].source == id then TargetsOf(edges, n - 1, id) + [edges[n - 1].target]
    else TargetsOf(edges, n - 1, id)
  }

  /** The sources of the first `n` edges entering `id`, in order. */
  function SourcesOf(edges: seq<Edge>, n: nat, id: Id): seq<Id>
    requires n <= |edges|
  {
    if n == 0 then []
    else if edges[n - 1].target == id then SourcesOf(edges, n - 1, id) + [edges[n - 1].source]
    else SourcesOf(edges, n - 1, id)
  }

  function Appended(next: Adjacency, id: Id, end: Id): (r: Adjacency)
    ensures Neighbours(r, id) == Neighbours(next, id) + [end]
    ensures forall x :: x != id ==> Neighbours(r, x) == Neighbours(next, x)
  {
    next[id := Neighbours(next, id) + [end]]
  }

  ghost predicate ListsTargets(next: Adjacency, edges: seq<Edge>, n: nat)
    requires n <= |edges|
  {
    forall id :: Neighbours(next, id) == TargetsOf(edges, n, id)
  }

  ghost predicate ListsSources(next: Adjacency, edges: seq<Edge>, n: nat)
    requires n <= |edges|
  {
    forall id :: Neighbours(next, id) == SourcesOf(edges, n, id)
  }

  /** Each list holds the other ends in the order of the edges. */
  method BuildGraph(edges: seq<Edge>) returns (successors: Adjacency, predecessors: Adjacency)
    ensures ListsTargets(successors, edges, |edges|) && ListsSources(predecessors, edges, |edges|)
  {
    successors, predecessors := map[], map[];
    for i := 0 to |edges|
      invariant ListsTargets(successors, edges, i) && ListsSources(predecessors, edges, i)
    {
      successors := Appended(successors, edges[i].source, edges[i].target);
      predecessors := Appended(predecessors, edges[i].target, edges[i].source);
    }
  }

  lemma {:induction false} EndsAreArcs(edges: seq<Edge>, n: nat, id: Id, x: Id)
    requires n <= |edges|
    ensures x in TargetsOf(edges, n, id) <==> exists i :: 0 <= i < n && edges[i].source == id && edges[i].target == x
    ensures x in SourcesOf(edges, n, id) <==> exists i :: 0 <= i < n && edges[i].source == x && edges[i].target == id
  {
    if n > 0 {
      EndsAreArcs(edges, n - 1, id, x);
    }
  }

  lemma ArcIsEdge(edges: seq<Edge>, a: Id, b: Id)
    ensures (a, b) in ArcsOf(edges) <==> exists i :: 0 <= i < |edges| && edges[i].source == a && edges[i].target == b
  {
    if i :| 0 <= i < |edges| && edges[i].source == a && edges[i].target == b {
      assert edges[i] in edges;
    }
  }

  lemma ListsArcs(edges: seq<Edge>, successors: Adjacency, predecessors: Adjacency)
    requires ListsTargets(successors, edges, |edges|) && ListsSources(predecessors, edges, |edges|)
    ensures Lists(successors, ArcsOf(edges)) && Lists(predecessors, Flip(ArcsOf(edges)))
  {
    forall a, b
      ensures b in TargetsOf(edges, |edges|, a) <==> (a, b) in ArcsOf(edges)
      ensures b in SourcesOf(edges, |edges|, a) <==> (b, a) in ArcsOf(edges)
    {
      EndsAreArcs(edges, |edges|, a, b);
      ArcIsEdge(edges, a, b);
      ArcIsEdge(edges, b, a);
    }
  }

  // ---- the breadth-first closure ----

  /** The inner loop: what is new among the neighbours is marked and queued, once each. */
  method Expand(nexts: seq<Id>, seen0: set<Id>) returns (seen: set<Id>, found: seq<Id>)
    ensures NoDup(found) && ToSet(found) == ToSet(nexts) - seen0
    ensures seen == seen0 + ToSet(found)
  {
    seen, found := seen0, [];
    for i := 0 to |nexts|
      invariant seen == seen0 + ToSet(nexts[..i])
      invariant NoDup(found) && ToSet(found) == ToSet(nexts[..i]) - seen0
    {
      assert nexts[..i + 1] == nexts[..i] + [nexts[i]];
      ToSetMore(nexts[..i], nexts[i]);
      if nexts[i] !in seen {
        seen := seen + {nexts[i]};
        ToSetMore(found, nexts[i]);
        assert nexts[i] !in ToSet(found);
        JoinNoDup(found, [nexts[i]]);
        found := found + [nexts[i]];
      }
    }
    assert nexts[..|nexts|] == nexts;
    assert seen == seen0 + ToSet(found);
  }

  /** Everything seen is reached; everything seen and no longer queued has its neighbours seen. */
  ghost predicate Exploring(arcs: Arcs, start: Id, seen: set<Id>, queue: seq<Id>) {
    && start in seen && ToSet(queue) <= seen
    && (forall x :: x in seen ==> Reaches(arcs, start, x))
    && (forall a :: a in arcs && a.0 in seen && a.0 !in queue ==> a.1 in seen)
  }

  lemma ExploringStep(arcs: Arcs, next: Adjacency, start: Id, seen: set<Id>, queue: seq<Id>, found: seq<Id>)
    requires Lists(next, arcs) && queue != [] && Exploring(arcs, start, seen, queue)
    requires ToSet(found) == ToSet(Neighbours(next, queue[0])) - seen
    ensures Exploring(arcs, start, seen + ToSet(found), queue[1..] + found)
  {
    var id := queue[0];
    var seen', queue' := seen + ToSet(found), queue[1..] + found;
    assert queue[0] in ToSet(queue);
    forall x | x in seen' ensures Reaches(arcs, start, x) {
      if x !in seen {
        assert x in ToSet(found);
        ReachesStep(arcs, start, id, x);
      }
    }
    forall a | a in arcs && a.0 in seen' && a.0 !in queue' ensures a.1 in seen' {
      if a.0 == id {
        assert a.1 in Neighbours(next, id);
        assert a.1 in ToSet(Neighbours(next, id));
      } else {
        assert a.0 !in ToSet(found);
        assert a.0 !in queue;
      }
    }
    forall x | x in ToSet(queue') ensures x in seen' {
      assert x in queue[1..] || x in ToSet(found);
      if x in queue[1..] {
        assert x in ToSet(queue);
      }
    }
  }

  lemma ExploredAll(arcs: Arcs, start: Id, seen: set<Id>)
    requires Exploring(arcs, start, seen, [])
    ensures forall x :: x in seen <==> Reaches(arcs, start, x)
  {
    forall x | Reaches(arcs, start, x) ensures x in seen {
      var w :| WalkBetween(arcs, start, x, w);
      ClosedHolds(arcs, seen, w);
    }
  }

  ghost function Universe(arcs: Arcs, start: Id): set<Id> {
    {start} + set a | a in arcs :: a.1
  }

  lemma ReachedInUniverse(arcs: Arcs, start: Id, x: Id)
    requires Reaches(arcs, start, x)
    ensures x in Universe(arcs, start)
  {
    var w :| WalkBetween(arcs, start, x, w);
    if |w| > 1 {
      assert (w[|w| - 2], w[|w| - 1]) in arcs;
    }
  }

  lemma RoomLeft(arcs: Arcs, start: Id, seen: set<Id>, queue: seq<Id>)
    requires Exploring(arcs, start, seen, queue)
    ensures seen <= Universe(arcs, start) && |seen| <= |Universe(arcs, start)|
  {
    forall x | x in seen ensures x in Universe(arcs, start) {
      ReachedInUniverse(arcs, start, x);
    }
    SubsetSize(seen, Universe(arcs, start));
  }

  /** How much there is left to explore. */
  ghost function Room(arcs: Arcs, start: Id, seen: set<Id>): int {
    |Universe(arcs, start)| - |seen|
  }

  /** One step of the exploration either uses up room or shortens the queue. */
  lemma ExploringProgress(arcs: Arcs, next: Adjacency, start: Id, seen: set<Id>, queue: seq<Id>, found: seq<Id>)
    requires Lists(next, arcs) && queue != [] && Exploring(arcs, start, seen, queue)
    requires ToSet(found) == ToSet(Neighbours(next, queue[0])) - seen
    ensures Exploring(arcs, start, seen + ToSet(found), queue[1..] + found)
    ensures 0 <= Room(arcs, start, seen + ToSet(found)) <= Room(arcs, start, seen)
    ensures found != [] ==> Room(arcs, start, seen + ToSet(found)) < Room(arcs, start, seen)
  {
    ExploringStep(arcs, next, start, seen, queue, found);
    RoomLeft(arcs, start, seen + ToSet(found), queue[1..] + found);
    SubsetSize(seen, seen + ToSet(found));
    if found != [] {
      assert found[0] in ToSet(found);
      SubsetSize(seen + {found[0]}, seen + ToSet(found));
    }
  }

  /** Breadth first from `start`: exactly what it reaches, on cyclic graphs too. */
  method Reach(start: Id, next: Adjacency, ghost arcs: Arcs) returns (seen: set<Id>)
    requires Lists(next, arcs)
    ensures forall x :: x in seen <==> Reaches(arcs, start, x)
  {
    seen := {start};
    var queue := [start];
    ReachesSelf(arcs, start);
    RoomLeft(arcs, start, seen, queue);
    while queue != []
      invariant Exploring(arcs, start, seen, queue)
      invariant Room(arcs, start, seen) >= 0
      decreases Room(arcs, start, seen), |queue|
    {
      var more, found := Expand(Neighbours(next, queue[0]), seen);
      ExploringProgress(arcs, next, start, seen, queue, found);
      queue := queue[1..] + found;
      seen := more;
    }
    ExploredAll(arcs, start, seen);
  }

  /** `x` stands on a walk that leads from one step to another. */
  ghost predicate OnWalk(arcs: Arcs, from: Id, to: Id, x: Id) {
    exists w :: WalkBetween(arcs, from, to, w) && x in w
  }

  method NodesBetween(from: Id, to: Id, edges: seq<Edge>) returns (between: set<Id>)
    ensures from == to ==> between == {}
    ensures from != to ==> forall x :: x in between <==> OnWalk(ArcsOf(edges), from, to, x)
  {
    if from == to {
      return {};
    }
    ghost var arcs := ArcsOf(edges);
    var successors, predecessors := BuildGraph(edges);
    ListsArcs(edges, successors, predecessors);
    var below := Reach(from, successors, arcs);
    if to !in below {
      forall x ensures !OnWalk(arcs, from, to, x) {
        assert !Reaches(arcs, from, to);
      }
      return {};
    }
    var above := Reach(to, predecessors, Flip(arcs));
    between := set id | id in below && id in above;
    forall x ensures x in between <==> OnWalk(arcs, from, to, x) {
      OnWalkIsBoth(arcs, from, to, x);
    }
  }

  // ---- ancestors ----

  datatype Kind = TriggerStep | ApprovalStep | LoopStep(bodyNodeIds: seq<Id>) | PlainStep

  datatype Node = Node(id: Id, kind: Kind)

  /** Nodes by id; a later node of the same id takes its place. */
  function ById(nodes: seq<Node>): (m: map<Id, Node>)
    ensures forall id :: id in m ==> m[id].id == id && m[id] in nodes
    ensures forall i :: 0 <= i < |nodes| ==> nodes[i].id in m
  {
    if nodes == [] then map[]
    else ById(nodes[..|nodes| - 1])[nodes[|nodes| - 1].id := nodes[|nodes| - 1]]
  }

  predicate Counts(m: map<Id, Node>, id: Id) {
    id in m && !m[id].kind.TriggerStep?
  }

  /** The nodes of the ids that are known and not triggers, in order. */
  function NodesFor(m: map<Id, Node>, ids: seq<Id>): seq<Node> {
    if ids == [] then []
    else
      var n := |ids| - 1;
      if Counts(m, ids[n]) then NodesFor(m, ids[..n]) + [m[ids[n]]] else NodesFor(m, ids[..n])
  }

  lemma {:induction false} NodesForJoin(m: map<Id, Node>, a: seq<Id>, b: seq<Id>)
    ensures NodesFor(m, a + b) == NodesFor(m, a) + NodesFor(m, b)
  {
    if b == [] {
      assert a + b == a;
    } else {
      var n := |b| - 1;
      assert (a + b)[..|a + b| - 1] == a + b[..n];
      NodesForJoin(m, a, b[..n]);
    }
  }

  lemma {:induction false} NodesForHolds(m: map<Id, Node>, ids: seq<Id>)
    requires forall id :: id in m ==> m[id].id == id
    requires NoDup(ids)
    ensures forall x :: x in NodesFor(m, ids) <==> x.id in ids && Counts(m, x.id) && m[x.id] == x
    ensures NoDup(NodesFor(m, ids))
  {
    if ids != [] {
      var n := |ids| - 1;
      NodesForHolds(m, ids[..n]);
      assert ids == ids[..n] + [ids[n]];
      assert ids[n] !in ids[..n];
      if Counts(m, ids[n]) {
        JoinNoDup(NodesFor(m, ids[..n]), [m[ids[n]]]);
      }
    }
  }

  /** What `found` in all has been queued so far, apart from the start. */
  ghost predicate Collected(start: Id, seen: set<Id>, found: seq<Id>) {
    NoDup(found) && start !in found && seen == {start} + ToSet(found)
  }

  lemma CollectedMore(start: Id, seen: set<Id>, all: seq<Id>, found: seq<Id>)
    requires Collected(start, seen, all) && NoDup(found) && ToSet(found) !! seen
    ensures Collected(start, seen + ToSet(found), all + found)
  {
    forall x | x in all ensures x !in found {
      assert x in ToSet(all) && x in seen;
      assert x !in ToSet(found);
    }
    JoinNoDup(all, found);
    assert start !in ToSet(found);
    assert ToSet(all + found) == ToSet(all) + ToSet(found);
  }

  /** The steps above `current`, triggers apart. */
  ghost predicate AncestorsOf(nodes: seq<Node>, arcs: Arcs, current: Id, x: Node) {
    && x.id != current && Reaches(arcs, x.id, current)
    && Counts(ById(nodes), x.id) && ById(nodes)[x.id] == x
  }

  lemma AncestorsCollected(nodes: seq<Node>, arcs: Arcs, current: Id, visited: set<Id>, all: seq<Id>)
    requires Exploring(Flip(arcs), current, visited, []) && Collected(current, visited, all)
    ensures NoDup(NodesFor(ById(nodes), all))
    ensures forall x :: x in NodesFor(ById(nodes), all) <==> AncestorsOf(nodes, arcs, current, x)
  {
    ExploredAll(Flip(arcs), current, visited);
    NodesForHolds(ById(nodes), all);
    forall x: Id ensures x in all <==> x != current && Reaches(arcs, x, current) {
      assert x in all <==> x in ToSet(all);
      FlipReaches(arcs, x, current);
    }
  }

  /** The state of the ancestor search. */
  ghost predicate Gathering(
      m: map<Id, Node>, arcs: Arcs, current: Id, visited: set<Id>, queue: seq<Id>, all: seq<Id>, ancestors: seq<Node>) {
    && Exploring(arcs, current, visited, queue) && Collected(current, visited, all)
    && ancestors == NodesFor(m, all) && Room(arcs, current, visited) >= 0
  }

  lemma GatheringStart(m: map<Id, Node>, arcs: Arcs, current: Id)
    ensures Gathering(m, arcs, current, {current}, [current], [], [])
  {
    ReachesSelf(arcs, current);
    RoomLeft(arcs, current, {current}, [current]);
  }

  lemma GatheringStep(
      m: map<Id, Node>, arcs: Arcs, preds: Adjacency, current: Id, visited: set<Id>, queue: seq<Id>, all: seq<Id>,
      ancestors: seq<Node>, found: seq<Id>)
    requires Lists(preds, arcs) && queue != [] && Gathering(m, arcs, current, visited, queue, all, ancestors)
    requires NoDup(found) && ToSet(found) == ToSet(Neighbours(preds, queue[0])) - visited
    ensures Gathering(
      m, arcs, current, visited + ToSet(found), queue[1..] + found, all + found, ancestors + NodesFor(m, found))
    ensures Room(arcs, current, visited + ToSet(found)) <= Room(arcs, current, visited)
    ensures found != [] ==> Room(arcs, current, visited + ToSet(found)) < Room(arcs, current, visited)
  {
    ExploringProgress(arcs, preds, current, visited, queue, found);
    CollectedMore(current, visited, all, found);
    NodesForJoin(m, all, found);
  }

  /** Every step above the current one, triggers apart, each exactly once. */
  method GetAncestorNodes(nodes: seq<Node>, edges: seq<Edge>, current: Id) returns (ancestors: seq<Node>)
    ensures NoDup(ancestors)
    ensures forall x :: x in ancestors <==> AncestorsOf(nodes, ArcsOf(edges), current, x)
  {
    var nodeMap := ById(nodes);
    ghost var arcs := Flip(ArcsOf(edges));
    var successors, predecessors := BuildGraph(edges);
    ListsArcs(edges, successors, predecessors);
    ancestors := [];
    var visited, queue := {current}, [current];
    ghost var all: seq<Id> := [];
    GatheringStart(nodeMap, arcs, current);
    while queue != []
      invariant Gathering(nodeMap, arcs, current, visited, queue, all, ancestors)
      decreases Room(arcs, current, visited), |queue|
    {
      var found: seq<Id>;
      ghost var before := visited;
      visited, found := Expand(Neighbours(predecessors, queue[0]), visited);
      GatheringStep(nodeMap, arcs, predecessors, current, before, queue, all, ancestors, found);
      queue := queue[1..] + found;
      all := all + found;
      ancestors := ancestors + NodesFor(nodeMap, found);
    }
    AncestorsCollected(nodes, ArcsOf(edges), current, visited, all);
  }

  lemma FlipReaches(arcs: Arcs, a: Id, b: Id)
    ensures Reaches(arcs, a, b) <==> Reaches(Flip(arcs), b, a)
  {
    if Reaches(arcs, a, b) {
      ReachesFlip(arcs, a, b);
    }
    if Reaches(Flip(arcs), b, a) {
      ReachesFlip(Flip(arcs), b, a);
      FlipFlip(arcs);
    }
  }

  lemma OnWalkIsBoth(arcs: Arcs, from: Id, to: Id, x: Id)
    ensures OnWalk(arcs, from, to, x) <==> Reaches(arcs, from, x) && Reaches(Flip(arcs), to, x)
  {
    if OnWalk(arcs, from, to, x) {
      var w :| WalkBetween(arcs, from, to, w) && x in w;
      var i :| 0 <= i < |w| && w[i] == x;
      assert WalkBetween(arcs, from, x, w[..i + 1]);
      assert WalkBetween(arcs, x, to, w[i..]);
      ReachesFlip(arcs, x, to);
    }
    if Reaches(arcs, from, x) && Reaches(Flip(arcs), to, x) {
      ReachesFlip(Flip(arcs), to, x);
      FlipFlip(arcs);
      var v :| WalkBetween(arcs, from, x, v);
      var w :| WalkBetween(arcs, x, to, w);
      WalkJoin(arcs, v, w);
      var u := v + w[1..];
      assert u[|v| - 1] == x;
      assert WalkBetween(arcs, from, to, u) && x in u;
    }
  }
}
