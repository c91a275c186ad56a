/** Loop bodies: who owns a step, what the run graph looks like with each loop standing in for its body
  * (`loopBodyOwners`, `collapseLoopBodies`, packages/shared/src/workflow-graph.ts).
  */
module Loops {
  import opened Wrappers
  import opened Graph

  // ---- owners ----

  predicate Claims(nodes: seq<Node>, n: Node, id: Id) {
    n.kind.LoopStep? && id in n.kind.bodyNodeIds && id in ById(nodes) && id != n.id
  }

  /** The first of the first `n` nodes to claim `id`. */
  function FirstClaim(nodes: seq<Node>, n: nat, id: Id): (r: Option<Id>)
    requires n <= |nodes|
    ensures r.Some? ==> exists i :: 0 <= i < n && Claims(nodes, nodes[i], id) && nodes[i].id == r.value
    ensures r.None? ==> forall i :: 0 <= i < n ==> !Claims(nodes, nodes[i], id)
  {
    if n == 0 then None
    else
      var before := FirstClaim(nodes, n - 1, id);
      if before.Some? then before
      else if Claims(nodes, nodes[n - 1], id) then Some(nodes[n - 1].id)
      else None
  }

  function OwnerOf(nodes: seq<Node>, id: Id): Option<Id> {
    FirstClaim(nodes, |nodes|, id)
  }

  ghost predicate OwnersAre(owners: map<Id, Id>, nodes: seq<Node>, n: nat)
    requires n <= |nodes|
  {
    forall id :: FirstClaim(nodes, n, id) == if id in owners then Some(owners[id]) else None
  }

  /** The inner loop: a loop claims what exists, is not itself and is not claimed yet. */
  method ClaimBody(exist: set<Id>, n: Node, body: seq<Id>, before: map<Id, Id>) returns (owners: map<Id, Id>)
    ensures forall id :: id in owners <==> id in before || (id in body && id in exist && id != n.id)
    ensures forall id :: id in owners ==> owners[id] == if id in before then before[id] else n.id
  {
    owners := before;
    for j := 0 to |body|
      invariant forall id :: id in owners <==> id in before || (id in body[..j] && id in exist && id != n.id)
      invariant forall id :: id in owners ==> owners[id] == if id in before then before[id] else n.id
    {
      assert body[..j + 1] == body[..j] + [body[j]];
      if body[j] in exist && body[j] != n.id && body[j] !in owners {
        owners := owners[body[j] := n.id];
      }
    }
    assert body[..|body|] == body;
  }

  method LoopBodyOwners(nodes: seq<Node>) returns (owners: map<Id, Id>)
    ensures OwnersAre(owners, nodes, |nodes|)
  {
    var exist := ById(nodes).Keys;
    owners := map[];
    for i := 0 to |nodes|
      invariant OwnersAre(owners, nodes, i)
    {
      if nodes[i].kind.LoopStep? {
        owners := ClaimBody(exist, nodes[i], nodes[i].kind.bodyNodeIds, owners);
      }
    }
  }

  /** What a step counts as in the run graph: its loop, if one owns it. */
  function Rep(nodes: seq<Node>, id: Id): Id {
    if OwnerOf(nodes, id).Some? then OwnerOf(nodes, id).value else id
  }

  // ---- collapsing ----

  function BranchText(b: Branch): string {
    match b
    case NoBranch => ""
    case OnTrue => "true"
    case OnFalse => "false"
  }

  function Key(e: Edge): string {
    e.source.name + "->" + e.target.name + ":" + BranchText(e.branch)
  }

  /** The edge as the run graph draws it, or nothing for an edge into a body or onto itself. */
  function Redrawn(nodes: seq<Node>, e: Edge): Option<Edge> {
    if OwnerOf(nodes, e.target).Some? then None
    else
      var owner := OwnerOf(nodes, e.source);
      var next := if owner.Some? then Edge(e.id + ":via-loop", owner.value, e.target, NoBranch) else e;
      if next.source == next.target then None else Some(next)
  }

  /** The redrawn edges of the first `n`, each key once. */
  function CollapsedTo(nodes: seq<Node>, edges: seq<Edge>, n: nat): seq<Edge>
    requires n <= |edges|
  {
    if n == 0 then []
    else
      var before := CollapsedTo(nodes, edges, n - 1);
      var next := Redrawn(nodes, edges[n - 1]);
      if next.Some? && !HasKey(before, Key(next.value)) then before + [next.value] else before
  }

  predicate HasKey(edges: seq<Edge>, key: string) {
    exists e :: e in edges && Key(e) == key
  }

  function Collapsed(nodes: seq<Node>, edges: seq<Edge>): seq<Edge> {
    CollapsedTo(nodes, edges, |edges|)
  }

  /** The loop's first half: an edge into a body or onto itself is skipped, one out of a body comes from the loop. */
  method Redraw(ghost nodes: seq<Node>, owners: map<Id, Id>, edge: Edge) returns (next: Option<Edge>)
    requires OwnersAre(owners, nodes, |nodes|)
    ensures next == Redrawn(nodes, edge)
  {
    assert OwnerOf(nodes, edge.target).Some? <==> edge.target in owners;
    if edge.target in owners {
      return None;
    }
    assert OwnerOf(nodes, edge.source) == if edge.source in owners then Some(owners[edge.source]) else None;
    var drawn := edge;
    if edge.source in owners {
      drawn := Edge(edge.id + ":via-loop", owners[edge.source], edge.target, NoBranch);
    }
    next := if drawn.source == drawn.target then None else Some(drawn);
  }

  method CollapseLoopBodies(nodes: seq<Node>, edges: seq<Edge>) returns (collapsed: seq<Edge>)
    ensures collapsed == Collapsed(nodes, edges)
  {
    var owners := LoopBodyOwners(nodes);
    var seen: set<string> := {};
    collapsed := [];
    for i := 0 to |edges|
      invariant collapsed == CollapsedTo(nodes, edges, i)
      invariant forall key :: key in seen <==> HasKey(collapsed, key)
    {
      var next := Redraw(nodes, owners, edges[i]);
      if next.Some? && Key(next.value) !in seen {
        KeysMore(collapsed, next.value);
        seen := seen + {Key(next.value)};
        collapsed := collapsed + [next.value];
      }
    }
  }

  lemma KeysMore(edges: seq<Edge>, e: Edge)
    ensures forall key :: HasKey(edges + [e], key) <==> HasKey(edges, key) || key == Key(e)
  {
    assert e in edges + [e];
  }

  // ---- what collapsing is ----

  /** What the run graph reads of an edge. */
  function Drawn(e: Edge): (Id, Id, Branch) {
    (e.source, e.target, e.branch)
  }

  ghost predicate Redraws(nodes: seq<Node>, edges: seq<Edge>, next: Edge) {
    exists e :: e in edges && Redrawn(nodes, e) == Some(next)
  }

  ghost predicate Kept(nodes: seq<Node>, edges: seq<Edge>, d: (Id, Id, Branch)) {
    exists k :: k in Collapsed(nodes, edges) && Drawn(k) == d
  }

  /** Two redrawn edges with one key are drawn alike. */
  ghost predicate KeysTellApart(nodes: seq<Node>, edges: seq<Edge>) {
    forall a, b :: Redraws(nodes, edges, a) && Redraws(nodes, edges, b) && Key(a) == Key(b) ==> Drawn(a) == Drawn(b)
  }

  lemma {:induction false} CollapsedHolds(nodes: seq<Node>, edges: seq<Edge>, n: nat)
    requires n <= |edges|
    ensures KeepsOnce(nodes, edges[..n], CollapsedTo(nodes, edges, n))
  {
    hide Key, Redrawn, HasKey, KeepsOnce;
    if n > 0 {
      CollapsedHolds(nodes, edges, n - 1);
      assert edges[..n] == edges[..n - 1] + [edges[n - 1]];
      KeepsMore(nodes, edges[..n - 1], CollapsedTo(nodes, edges, n - 1), edges[n - 1]);
    } else {
      KeepsNone(nodes);
      assert edges[..0] == [];
    }
  }

  lemma KeepsNone(nodes: seq<Node>)
    ensures KeepsOnce(nodes, [], [])
  {
  }

  /** `kept` holds redrawn edges only, one of every key there is, and no key twice. */
  ghost predicate KeepsOnce(nodes: seq<Node>, edges: seq<Edge>, kept: seq<Edge>) {
    && (forall k :: k in kept ==> Redraws(nodes, edges, k))
    && (forall k :: Redraws(nodes, edges, k) ==> HasKey(kept, Key(k)))
    && (forall i, j :: 0 <= i < j < |kept| ==> Key(kept[i]) != Key(kept[j]))
  }

  lemma KeepsMore(nodes: seq<Node>, edges: seq<Edge>, kept: seq<Edge>, e: Edge)
    requires KeepsOnce(nodes, edges, kept)
    ensures
      var next := Redrawn(nodes, e);
      KeepsOnce(nodes, edges + [e],
                if next.Some? && !HasKey(kept, Key(next.value)) then kept + [next.value] else kept)
  {
    hide Key, Redrawn, Redraws, HasKey;
    var next := Redrawn(nodes, e);
    RedrawsMore(nodes, edges, e);
    if next.Some? {
      KeysMore(kept, next.value);
      KeysHeld(kept);
    }
  }

  lemma RedrawsMore(nodes: seq<Node>, edges: seq<Edge>, e: Edge)
    ensures forall k :: Redraws(nodes, edges + [e], k) <==> Redraws(nodes, edges, k) || Redrawn(nodes, e) == Some(k)
  {
    forall k ensures Redraws(nodes, edges + [e], k) <==> Redraws(nodes, edges, k) || Redrawn(nodes, e) == Some(k) {
      assert e in edges + [e];
      assert forall x :: x in edges + [e] <==> x in edges || x == e;
    }
  }

  lemma KeysHeld(edges: seq<Edge>)
    ensures forall i :: 0 <= i < |edges| ==> HasKey(edges, Key(edges[i]))
  {
    forall i | 0 <= i < |edges| ensures HasKey(edges, Key(edges[i])) {
      assert edges[i] in edges;
    }
  }

  lemma KeptIsRedrawn(nodes: seq<Node>, edges: seq<Edge>)
    ensures forall k :: k in Collapsed(nodes, edges) ==> Redraws(nodes, edges, k)
    ensures forall k :: Redraws(nodes, edges, k) ==> HasKey(Collapsed(nodes, edges), Key(k))
    ensures forall a, b :: a in Collapsed(nodes, edges) && b in Collapsed(nodes, edges) && Key(a) == Key(b) ==> a == b
  {
    CollapsedHolds(nodes, edges, |edges|);
    assert edges[..|edges|] == edges;
  }

  /** Every redrawn edge is kept once, exactly when keys tell redrawn edges apart. */
  lemma KeepsAllIffKeysTellApart(nodes: seq<Node>, edges: seq<Edge>)
    ensures (forall k :: Redraws(nodes, edges, k) ==> Kept(nodes, edges, Drawn(k))) <==> KeysTellApart(nodes, edges)
  {
    KeptIsRedrawn(nodes, edges);
    if KeysTellApart(nodes, edges) {
      forall k | Redraws(nodes, edges, k) ensures Kept(nodes, edges, Drawn(k)) {
        var c :| c in Collapsed(nodes, edges) && Key(c) == Key(k);
        assert Drawn(c) == Drawn(k);
      }
    }
    if forall k :: Redraws(nodes, edges, k) ==> Kept(nodes, edges, Drawn(k)) {
      forall a, b | Redraws(nodes, edges, a) && Redraws(nodes, edges, b) && Key(a) == Key(b)
        ensures Drawn(a) == Drawn(b) {
        assert Kept(nodes, edges, Drawn(a)) && Kept(nodes, edges, Drawn(b));
        var c :| c in Collapsed(nodes, edges) && Drawn(c) == Drawn(a);
        var d :| d in Collapsed(nodes, edges) && Drawn(d) == Drawn(b);
        assert Key(c) == Key(a) && Key(d) == Key(b);
      }
    }
  }

  predicate PlainName(id: Id) {
    '>' !in id.name
  }

  /** Ids without `>` have keys of their own. */
  lemma KeyInjective(a: Edge, b: Edge)
    requires PlainName(a.source) && PlainName(b.source) && Key(a) == Key(b)
    ensures Drawn(a) == Drawn(b)
  {
    var x, y := a.target.name + ":" + BranchText(a.branch), b.target.name + ":" + BranchText(b.branch);
    hide Key, BranchText;
    KeyIs(a);
    KeyIs(b);
    ArrowCuts(a.source.name, b.source.name, x, y);
    BranchEnds(a.target.name, b.target.name, a.branch, b.branch);
  }

  lemma KeyIs(e: Edge)
    ensures Key(e) == e.source.name + ("->" + (e.target.name + ":" + BranchText(e.branch)))
  {
    hide BranchText;
    var s, t, b := e.source.name, e.target.name, BranchText(e.branch);
    assert s + "->" + t + ":" + b == s + ("->" + (t + ":" + b));
  }

  /** The first arrowhead tells where the source's name ends. */
  lemma ArrowCuts(s: string, t: string, x: string, y: string)
    requires '>' !in s && '>' !in t && s + ("->" + x) == t + ("->" + y)
    ensures s == t && x == y
  {
    var w := s + ("->" + x);
    ArrowAt(s, x);
    ArrowAt(t, y);
    assert |s| == |t|;
    assert s == w[..|s|] && t == w[..|t|];
    assert x == w[|s| + 2..] && y == w[|t| + 2..];
  }

  lemma ArrowAt(s: string, x: string)
    requires '>' !in s
    ensures
      var w := s + ("->" + x);
      |w| >= |s| + 2 && w[|s| + 1] == '>' && forall i :: 0 <= i <= |s| ==> w[i] != '>'
  {
    assert forall i :: 0 <= i < |s| ==> s[i] in s;
  }

  lemma BranchEnds(s: string, t: string, a: Branch, b: Branch)
    requires s + ":" + BranchText(a) == t + ":" + BranchText(b)
    ensures s == t && a == b
  {
    LastColon(s, t, BranchText(a), BranchText(b));
    assert |BranchText(a)| == |BranchText(b)|;
  }

  lemma LastColon(s: string, t: string, u: string, v: string)
    requires s + ":" + u == t + ":" + v && ':' !in u && ':' !in v
    ensures s == t && u == v
  {
    var x := s + ":" + u;
    assert x[|s|] == ':' && x[|t|] == ':';
    assert forall i :: |s| < i < |x| ==> x[i] == u[i - |s| - 1];
    assert forall i :: |t| < i < |x| ==> x[i] == v[i - |t| - 1];
    assert |s| == |t|;
    assert s == x[..|s|] && t == x[..|t|];
    assert u == x[|s| + 1..] && v == x[|t| + 1..];
  }

  /** An id that holds the arrow can take another edge's key, and that edge is then lost. */
  lemma ArrowInIdLosesAnEdge()
    ensures
      var first := Edge("1", Id("a->b"), Id("c"), NoBranch);
      var second := Edge("2", Id("a"), Id("b->c"), NoBranch);
      Collapsed([], [first, second]) == [first] && Drawn(first) != Drawn(second)
  {
    var first := Edge("1", Id("a->b"), Id("c"), NoBranch);
    var second := Edge("2", Id("a"), Id("b->c"), NoBranch);
    var edges := [first, second];
    assert Key(first) == "a->b->c:" && Key(second) == "a->b->c:";
    assert first.source.name != second.source.name by { assert |first.source.name| != |second.source.name|; }
    assert |"c"| != |"a->b"|;
    assert Redrawn([], first) == Some(first);
    assert CollapsedTo([], edges, 1) == [first];
    assert first in [first];
    assert HasKey([first], Key(second));
  }
}
