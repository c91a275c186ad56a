/** What collapsing loop bodies keeps: the run graph is the graph with every body step read as its loop
  * (`collapseLoopBodies`, packages/shared/src/workflow-graph.ts).
  */
module LoopQuotient {
  import opened Counting
  import opened Wrappers
  import opened Graph
  import opened Loops
  import opened LoopBodies

  ghost predicate UniqueIds(nodes: seq<Node>) {
    forall i, j :: 0 <= i < j < |nodes| ==> nodes[i].id != nodes[j].id
  }

  /** Every loop passes `loopStructureError`. */
  ghost predicate LoopsAccepted(nodes: seq<Node>, edges: seq<Edge>) {
    forall n :: n in nodes && n.kind.LoopStep? ==> StructureOutcome(nodes, edges, n) == None
  }

  ghost predicate Sound(nodes: seq<Node>, edges: seq<Edge>) {
    UniqueIds(nodes) && LoopsAccepted(nodes, edges)
  }

  lemma OwnerIsLoop(nodes: seq<Node>, edges: seq<Edge>, id: Id) returns (loop: Node)
    requires Sound(nodes, edges) && OwnerOf(nodes, id).Some?
    ensures loop in nodes && loop.kind.LoopStep? && OwnerOf(nodes, id) == Some(loop.id)
    ensures BodyOk(nodes, edges, loop) && id in MembersOf(nodes, loop)
  {
    hide StructureOutcome, BodyOk, MembersOf;
    var i :| 0 <= i < |nodes| && Claims(nodes, nodes[i], id) && nodes[i].id == OwnerOf(nodes, id).value;
    loop := nodes[i];
    assert StructureOutcome(nodes, edges, loop) == None;
    AcceptedIffBodyOk(nodes, edges, loop);
    ClaimedIsMember(nodes, loop, id);
  }

  lemma ClaimedIsMember(nodes: seq<Node>, loop: Node, id: Id)
    requires Claims(nodes, loop, id) && OwnerOf(nodes, id) == Some(loop.id)
    ensures id in MembersOf(nodes, loop)
  {
    MembersOwned(nodes, loop.id, BodyOf(loop), |BodyOf(loop)|);
    assert BodyOf(loop)[..|BodyOf(loop)|] == BodyOf(loop);
  }

  lemma UniqueNode(nodes: seq<Node>, n: Node)
    requires UniqueIds(nodes) && n in nodes
    ensures n.id in ById(nodes) && ById(nodes)[n.id] == n
  {
    var j :| 0 <= j < |nodes| && nodes[j] == n;
    var other := ById(nodes)[nodes[j].id];
    assert other.id == n.id && other in nodes;
    var i :| 0 <= i < |nodes| && nodes[i] == other;
    assert nodes[i].id == nodes[j].id;
  }

  /** No loop is itself a body step. */
  lemma OwnerIsUnowned(nodes: seq<Node>, edges: seq<Edge>, loop: Node)
    requires Sound(nodes, edges) && loop in nodes && loop.kind.LoopStep?
    ensures OwnerOf(nodes, loop.id) == None
  {
    UniqueNode(nodes, loop);
    if OwnerOf(nodes, loop.id).Some? {
      var outer := OwnerIsLoop(nodes, edges, loop.id);
    }
  }

  lemma RepIsUnowned(nodes: seq<Node>, edges: seq<Edge>, id: Id)
    requires Sound(nodes, edges)
    ensures OwnerOf(nodes, Rep(nodes, id)) == None
  {
    if OwnerOf(nodes, id).Some? {
      var loop := OwnerIsLoop(nodes, edges, id);
      OwnerIsUnowned(nodes, edges, loop);
    }
  }

  /** An edge into a body starts at its loop or inside it. */
  lemma IntoBody(nodes: seq<Node>, edges: seq<Edge>, e: Edge)
    requires Sound(nodes, edges) && e in edges && OwnerOf(nodes, e.target).Some?
    ensures Rep(nodes, e.source) == Rep(nodes, e.target)
  {
    var loop := OwnerIsLoop(nodes, edges, e.target);
    MembersExist(nodes, loop);
    OwnerIsUnowned(nodes, edges, loop);
    assert e.target in ToSet(MembersOf(nodes, loop));
    assert e.source in MembersOf(nodes, loop) || e.source == loop.id;
  }

  /** An edge out of a body carries no label to lose. */
  lemma OutOfBody(nodes: seq<Node>, edges: seq<Edge>, e: Edge)
    requires Sound(nodes, edges) && e in edges && OwnerOf(nodes, e.source).Some? && OwnerOf(nodes, e.target).None?
    ensures e.branch == NoBranch
  {
    var loop := OwnerIsLoop(nodes, edges, e.source);
    MembersExist(nodes, loop);
    assert e.source in ToSet(MembersOf(nodes, loop)) && e.target !in ToSet(MembersOf(nodes, loop));
  }

  function Quotient(nodes: seq<Node>, e: Edge): (Id, Id, Branch) {
    (Rep(nodes, e.source), Rep(nodes, e.target), e.branch)
  }

  lemma RedrawnIsQuotient(nodes: seq<Node>, edges: seq<Edge>, e: Edge)
    requires Sound(nodes, edges) && e in edges
    ensures Redrawn(nodes, e).None? <==> Rep(nodes, e.source) == Rep(nodes, e.target)
    ensures Redrawn(nodes, e).Some? ==> Drawn(Redrawn(nodes, e).value) == Quotient(nodes, e)
  {
    if OwnerOf(nodes, e.target).Some? {
      IntoBody(nodes, edges, e);
    } else if OwnerOf(nodes, e.source).Some? {
      OutOfBody(nodes, edges, e);
    }
  }

  ghost predicate InQuotient(nodes: seq<Node>, edges: seq<Edge>, d: (Id, Id, Branch)) {
    d.0 != d.1 && exists e :: e in edges && Quotient(nodes, e) == d
  }

  /** The run graph is the quotient by "body step to its loop", labels included, without self-edges or repeats. */
  lemma CollapsedIsQuotient(nodes: seq<Node>, edges: seq<Edge>)
    requires Sound(nodes, edges) && KeysTellApart(nodes, edges)
    ensures forall d :: Kept(nodes, edges, d) <==> InQuotient(nodes, edges, d)
    ensures var c := Collapsed(nodes, edges); forall i, j :: 0 <= i < j < |c| ==> Drawn(c[i]) != Drawn(c[j])
  {
    KeptIsRedrawn(nodes, edges);
    KeepsAllIffKeysTellApart(nodes, edges);
    forall d ensures Kept(nodes, edges, d) <==> InQuotient(nodes, edges, d) {
      if Kept(nodes, edges, d) {
        var k :| k in Collapsed(nodes, edges) && Drawn(k) == d;
        assert Redraws(nodes, edges, k);
        var e :| e in edges && Redrawn(nodes, e) == Some(k);
        RedrawnIsQuotient(nodes, edges, e);
      }
      if InQuotient(nodes, edges, d) {
        var e :| e in edges && Quotient(nodes, e) == d;
        RedrawnIsQuotient(nodes, edges, e);
        assert Redraws(nodes, edges, Redrawn(nodes, e).value);
      }
    }
    NoTwoAlike(nodes, edges);
  }

  lemma NoTwoAlike(nodes: seq<Node>, edges: seq<Edge>)
    ensures var c := Collapsed(nodes, edges); forall i, j :: 0 <= i < j < |c| ==> Drawn(c[i]) != Drawn(c[j])
  {
    CollapsedHolds(nodes, edges, |edges|);
    var c := Collapsed(nodes, edges);
    forall i, j | 0 <= i < j < |c| ensures Drawn(c[i]) != Drawn(c[j]) {
      assert Key(c[i]) != Key(c[j]);
    }
  }

  /** Ids without `>` are enough for keys to tell edges apart. */
  lemma PlainNamesTellApart(nodes: seq<Node>, edges: seq<Edge>)
    requires (forall n :: n in nodes ==> PlainName(n.id)) && forall e :: e in edges ==> PlainName(e.source)
    ensures KeysTellApart(nodes, edges)
  {
    forall k | Redraws(nodes, edges, k) ensures PlainName(k.source) {
      var e :| e in edges && Redrawn(nodes, e) == Some(k);
      if OwnerOf(nodes, e.source).Some? {
        var i :| 0 <= i < |nodes| && Claims(nodes, nodes[i], e.source) && nodes[i].id == OwnerOf(nodes, e.source).value;
        assert nodes[i] in nodes;
      }
    }
    forall a, b | Redraws(nodes, edges, a) && Redraws(nodes, edges, b) && Key(a) == Key(b)
      ensures Drawn(a) == Drawn(b) {
      KeyInjective(a, b);
    }
  }

  // ---- reachability ----

  ghost function RunArcs(nodes: seq<Node>, edges: seq<Edge>): Arcs {
    ArcsOf(Collapsed(nodes, edges))
  }

  lemma RunArcIs(nodes: seq<Node>, edges: seq<Edge>, x: Id, y: Id)
    requires Sound(nodes, edges) && KeysTellApart(nodes, edges)
    ensures (x, y) in RunArcs(nodes, edges) <==>
      x != y && exists e :: e in edges && Rep(nodes, e.source) == x && Rep(nodes, e.target) == y
  {
    CollapsedIsQuotient(nodes, edges);
    if (x, y) in RunArcs(nodes, edges) {
      var k :| k in Collapsed(nodes, edges) && (k.source, k.target) == (x, y);
      assert Kept(nodes, edges, Drawn(k));
      var e :| e in edges && Quotient(nodes, e) == Drawn(k);
    }
    if e :| x != y && e in edges && Rep(nodes, e.source) == x && Rep(nodes, e.target) == y {
      assert InQuotient(nodes, edges, Quotient(nodes, e));
      var k :| k in Collapsed(nodes, edges) && Drawn(k) == Quotient(nodes, e);
      assert (k.source, k.target) in RunArcs(nodes, edges);
    }
  }

  /** Every walk is followed in the run graph, from loop to loop. */
  lemma {:induction false} WalkCollapses(nodes: seq<Node>, edges: seq<Edge>, w: seq<Id>)
    requires Sound(nodes, edges) && KeysTellApart(nodes, edges) && Walk(ArcsOf(edges), w)
    ensures Reaches(RunArcs(nodes, edges), Rep(nodes, w[0]), Rep(nodes, w[|w| - 1]))
  {
    var n := |w| - 1;
    if n == 0 {
      ReachesSelf(RunArcs(nodes, edges), Rep(nodes, w[0]));
    } else {
      WalkCollapses(nodes, edges, w[..n]);
      var e :| e in edges && (e.source, e.target) == (w[n - 1], w[n]);
      var x, y := Rep(nodes, w[n - 1]), Rep(nodes, w[n]);
      if x != y {
        RunArcIs(nodes, edges, x, y);
        ReachesStep(RunArcs(nodes, edges), Rep(nodes, w[0]), x, y);
      }
    }
  }

  /** Whatever a body step leads to outside, its loop leads to as well. */
  ghost predicate ExitsBelowLoop(nodes: seq<Node>, edges: seq<Edge>) {
    forall e :: e in edges && OwnerOf(nodes, e.source).Some? && OwnerOf(nodes, e.target).None? ==>
      Reaches(ArcsOf(edges), OwnerOf(nodes, e.source).value, e.target)
  }

  ghost predicate LoopsReachBodies(nodes: seq<Node>, edges: seq<Edge>) {
    forall id :: OwnerOf(nodes, id).Some? ==> Reaches(ArcsOf(edges), OwnerOf(nodes, id).value, id)
  }

  lemma BodiesReachedThenExits(nodes: seq<Node>, edges: seq<Edge>)
    requires LoopsReachBodies(nodes, edges)
    ensures ExitsBelowLoop(nodes, edges)
  {
    forall e | e in edges && OwnerOf(nodes, e.source).Some? && OwnerOf(nodes, e.target).None?
      ensures Reaches(ArcsOf(edges), OwnerOf(nodes, e.source).value, e.target)
    {
      ReachesStep(ArcsOf(edges), OwnerOf(nodes, e.source).value, e.source, e.target);
    }
  }

  lemma RunArcLifts(nodes: seq<Node>, edges: seq<Edge>, x: Id, y: Id)
    requires Sound(nodes, edges) && KeysTellApart(nodes, edges) && ExitsBelowLoop(nodes, edges)
    requires (x, y) in RunArcs(nodes, edges)
    ensures Reaches(ArcsOf(edges), x, y) && x != y
  {
    RunArcIs(nodes, edges, x, y);
    var e :| e in edges && Rep(nodes, e.source) == x && Rep(nodes, e.target) == y;
    if OwnerOf(nodes, e.target).Some? {
      IntoBody(nodes, edges, e);
    }
    if OwnerOf(nodes, e.source).None? {
      ReachesSelf(ArcsOf(edges), x);
      ReachesStep(ArcsOf(edges), x, x, y);
    }
  }

  lemma {:induction false} RunWalkLifts(nodes: seq<Node>, edges: seq<Edge>, w: seq<Id>)
    requires Sound(nodes, edges) && KeysTellApart(nodes, edges) && ExitsBelowLoop(nodes, edges)
    requires Walk(RunArcs(nodes, edges), w)
    ensures Reaches(ArcsOf(edges), w[0], w[|w| - 1])
  {
    var n := |w| - 1;
    if n == 0 {
      ReachesSelf(ArcsOf(edges), w[0]);
    } else {
      RunWalkLifts(nodes, edges, w[..n]);
      assert (w[n - 1], w[n]) in RunArcs(nodes, edges);
      RunArcLifts(nodes, edges, w[n - 1], w[n]);
      ReachesJoin(ArcsOf(edges), w[0], w[n - 1], w[n]);
    }
  }

  /** Steps outside loops reach the same steps in the run graph as in the workflow. */
  ghost predicate KeepsReach(nodes: seq<Node>, edges: seq<Edge>) {
    forall a, b :: OwnerOf(nodes, a).None? && OwnerOf(nodes, b).None? ==>
      (Reaches(ArcsOf(edges), a, b) <==> Reaches(RunArcs(nodes, edges), a, b))
  }

  /** Collapsing never loses a path; it adds none exactly when each loop leads wherever its body does. */
  lemma ReachKeptIffExitsBelowLoop(nodes: seq<Node>, edges: seq<Edge>)
    requires Sound(nodes, edges) && KeysTellApart(nodes, edges)
    ensures forall a, b :: Reaches(ArcsOf(edges), a, b) ==> Reaches(RunArcs(nodes, edges), Rep(nodes, a), Rep(nodes, b))
    ensures KeepsReach(nodes, edges) <==> ExitsBelowLoop(nodes, edges)
  {
    forall a, b | Reaches(ArcsOf(edges), a, b) ensures Reaches(RunArcs(nodes, edges), Rep(nodes, a), Rep(nodes, b)) {
      var w :| WalkBetween(ArcsOf(edges), a, b, w);
      WalkCollapses(nodes, edges, w);
    }
    if ExitsBelowLoop(nodes, edges) {
      forall a, b | Reaches(RunArcs(nodes, edges), a, b) ensures Reaches(ArcsOf(edges), a, b) {
        var w :| WalkBetween(RunArcs(nodes, edges), a, b, w);
        RunWalkLifts(nodes, edges, w);
      }
    }
    if KeepsReach(nodes, edges) {
      ExitsKept(nodes, edges);
    }
  }

  lemma ExitsKept(nodes: seq<Node>, edges: seq<Edge>)
    requires Sound(nodes, edges) && KeysTellApart(nodes, edges) && KeepsReach(nodes, edges)
    ensures ExitsBelowLoop(nodes, edges)
  {
    forall e | e in edges && OwnerOf(nodes, e.source).Some? && OwnerOf(nodes, e.target).None?
      ensures Reaches(ArcsOf(edges), OwnerOf(nodes, e.source).value, e.target)
    {
      var x, y := Rep(nodes, e.source), e.target;
      RepIsUnowned(nodes, edges, e.source);
      ReachesSelf(RunArcs(nodes, edges), x);
      if x != y {
        RunArcIs(nodes, edges, x, y);
        ReachesStep(RunArcs(nodes, edges), x, x, y);
      }
      assert Reaches(RunArcs(nodes, edges), x, y);
    }
  }

  lemma BothWaysIsCycle(arcs: Arcs, a: Id, b: Id)
    requires Reaches(arcs, a, b) && Reaches(arcs, b, a) && a != b
    ensures !Acyclic(arcs)
  {
    var v :| WalkBetween(arcs, a, b, v);
    var w :| WalkBetween(arcs, b, a, w);
    WalkJoin(arcs, v, w);
    var u := v + w[1..];
    assert |v| > 1 && u[0] == a;
  }

  /** Collapsing makes no cycle out of a graph without one. */
  lemma StaysAcyclic(nodes: seq<Node>, edges: seq<Edge>)
    requires Sound(nodes, edges) && KeysTellApart(nodes, edges) && ExitsBelowLoop(nodes, edges)
    requires Acyclic(ArcsOf(edges))
    ensures Acyclic(RunArcs(nodes, edges))
  {
    forall w | Walk(RunArcs(nodes, edges), w) && |w| > 1 ensures w[0] != w[|w| - 1] {
      assert (w[0], w[1]) in RunArcs(nodes, edges);
      RunArcLifts(nodes, edges, w[0], w[1]);
      forall i | 0 <= i < |w[1..]| - 1 ensures (w[1..][i], w[1..][i + 1]) in RunArcs(nodes, edges) {
        assert (w[i + 1], w[i + 2]) in RunArcs(nodes, edges);
      }
      RunWalkLifts(nodes, edges, w[1..]);
      if Reaches(ArcsOf(edges), w[1], w[0]) {
        BothWaysIsCycle(ArcsOf(edges), w[0], w[1]);
      }
    }
  }

  /** The condition is needed: a body step that leads on where its loop does not gives the run graph a new path. */
  lemma CollapsingCanAddAPath(b: Id, l: Id, t: Id)
    requires b != l && l != t && b != t
    ensures
      var nodes := [Node(b, PlainStep), Node(l, LoopStep([b])), Node(t, PlainStep)];
      var edges := [Edge("out", b, t, NoBranch)];
      && Sound(nodes, edges) && KeysTellApart(nodes, edges)
      && Reaches(RunArcs(nodes, edges), l, t) && !Reaches(ArcsOf(edges), l, t)
  {
    var step, loop, last := Node(b, PlainStep), Node(l, LoopStep([b])), Node(t, PlainStep);
    var nodes, e := [step, loop, last], Edge("out", b, t, NoBranch);
    OneStepBody(step, loop, last);
    OneStepBodyOk(nodes, e, loop);
    OneStepSound(step, loop, last, e);
    OneEdgeAdds(nodes, e, l);
  }

  lemma OneEdgeAdds(nodes: seq<Node>, e: Edge, l: Id)
    requires Sound(nodes, [e]) && OwnerOf(nodes, e.source) == Some(l) && OwnerOf(nodes, e.target) == None
    requires l != e.source && l != e.target
    ensures KeysTellApart(nodes, [e]) && Reaches(RunArcs(nodes, [e]), l, e.target) && !Reaches(ArcsOf([e]), l, e.target)
  {
    hide Sound;
    OneEdgeTellsApart(nodes, e);
    RunArcIs(nodes, [e], l, e.target);
    assert e in [e];
    ReachesSelf(RunArcs(nodes, [e]), l);
    ReachesStep(RunArcs(nodes, [e]), l, l, e.target);
    if Reaches(ArcsOf([e]), l, e.target) {
      var w :| WalkBetween(ArcsOf([e]), l, e.target, w);
      ClosedHolds(ArcsOf([e]), {l}, w);
    }
  }

  lemma OneEdgeTellsApart(nodes: seq<Node>, e: Edge)
    ensures KeysTellApart(nodes, [e])
  {
    forall a | Redraws(nodes, [e], a) ensures Redrawn(nodes, e) == Some(a) {
    }
  }

  lemma OneStepBody(step: Node, loop: Node, last: Node)
    requires step.id != loop.id && loop.id != last.id && step.id != last.id
    requires step.kind.PlainStep? && last.kind.PlainStep? && loop.kind == LoopStep([step.id])
    ensures
      var nodes := [step, loop, last];
      && OwnerOf(nodes, step.id) == Some(loop.id) && OwnerOf(nodes, loop.id) == None && OwnerOf(nodes, last.id) == None
      && MembersOf(nodes, loop) == [step.id] && ById(nodes)[step.id] == step && step.id in ById(nodes)
  {
    var nodes := [step, loop, last];
    SmallById(step, loop, last);
    forall id ensures OwnerOf(nodes, id) == if id == step.id then Some(loop.id) else None {
      assert FirstClaim(nodes, 1, id) == None;
      assert FirstClaim(nodes, 2, id) == if Claims(nodes, loop, id) then Some(loop.id) else None;
    }
    assert MemberIds(nodes, loop.id, [step.id], 0) == [];
  }

  lemma OneStepBodyOk(nodes: seq<Node>, e: Edge, loop: Node)
    requires MembersOf(nodes, loop) == [e.source] && e.source != e.target && e.branch == NoBranch
    requires e.source in ById(nodes) && ById(nodes)[e.source].kind.PlainStep?
    ensures BodyOk(nodes, [e], loop)
  {
    var members := [e.source];
    assert ToSet(members) == {e.source};
    assert Inner([e], 0, {e.source}) == [];
    assert BodyEdges(members, [e]) == [];
    assert ArcsOf([]) == {};
    TopologicalIsAcyclic({}, []);
  }

  lemma OneStepSound(step: Node, loop: Node, last: Node, e: Edge)
    requires step.id != loop.id && loop.id != last.id && step.id != last.id
    requires step.kind.PlainStep? && last.kind.PlainStep? && BodyOk([step, loop, last], [e], loop)
    ensures Sound([step, loop, last], [e])
  {
    hide BodyOk, StructureOutcome;
    AcceptedIffBodyOk([step, loop, last], [e], loop);
  }
}
