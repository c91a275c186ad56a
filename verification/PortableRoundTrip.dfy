/** A workflow exported and imported again (packages/shared/src/workflow-portability.ts). */
module PortableRoundTrip {
  import opened Wrappers
  import opened PortablePaths
  import opened Portability

  ghost predicate UniqueNodes(nodes: seq<Node>) {
    forall i, j :: 0 <= i < j < |nodes| ==> nodes[i].id != nodes[j].id
  }

  /** The `i`th node as it comes out of an export and an import. */
  ghost function Through(
      nodes: seq<Node>, i: nat, from: string, conns: seq<Connection>, to: Project, there: seq<Connection>,
      token: string): Node
    requires i < |nodes|
  {
    var needs := Needs(nodes, from, conns, |nodes|);
    Imported(Exported(nodes[i], from, conns), NeedsFor(needs, nodes[i].id, |needs|), to, there, token)
  }

  function OptionSeq(r: Option<Requirement>): seq<Requirement> {
    if r.Some? then [r.value] else []
  }

  lemma NeedNamesNode(node: Node, from: string, conns: seq<Connection>)
    ensures NodeNeed(node, from, conns).Some? ==> NodeNeed(node, from, conns).value.nodeId == node.id
  {
  }

  lemma {:induction false} NeedsForMore(needs: seq<Requirement>, r: Requirement, id: string, n: nat)
    requires n <= |needs|
    ensures NeedsFor(needs + [r], id, n) == NeedsFor(needs, id, n)
  {
    if n > 0 {
      NeedsForMore(needs, r, id, n - 1);
    }
  }

  /** A file names each node's own need, and no other, under its id. */
  lemma {:induction false} OwnNeed(nodes: seq<Node>, from: string, conns: seq<Connection>, n: nat, i: nat)
    requires n <= |nodes| && i < |nodes| && UniqueNodes(nodes)
    ensures var needs := Needs(nodes, from, conns, n);
      NeedsFor(needs, nodes[i].id, |needs|) == if i < n then OptionSeq(NodeNeed(nodes[i], from, conns)) else []
  {
    if n > 0 {
      OwnNeed(nodes, from, conns, n - 1, i);
      var before := Needs(nodes, from, conns, n - 1);
      var need := NodeNeed(nodes[n - 1], from, conns);
      NeedNamesNode(nodes[n - 1], from, conns);
      if need.Some? {
        NeedsForMore(before, need.value, nodes[i].id, |before|);
        assert i != n - 1 ==> nodes[i].id != nodes[n - 1].id;
      }
    }
  }

  lemma ThroughIs(
      nodes: seq<Node>, i: nat, from: string, conns: seq<Connection>, to: Project, there: seq<Connection>,
      token: string)
    requires i < |nodes| && UniqueNodes(nodes)
    ensures Through(nodes, i, from, conns, to, there, token) ==
      Imported(Exported(nodes[i], from, conns), OptionSeq(NodeNeed(nodes[i], from, conns)), to, there, token)
  {
    OwnNeed(nodes, from, conns, |nodes|, i);
  }

  // ---- paths ----

  predicate PathKey(key: Key) {
    key.ProjectPath? || key.Cwd? || key.ExistingWorktreePath?
  }

  lemma MovedAt(config: Config, moved: Key, from: string, key: Key)
    ensures TextAt(MovedPath(config, moved, from), key) ==
      if key == moved && FilledAt(config, key).Some? then Some(ReplacePath(FilledAt(config, key).value, from))
      else TextAt(config, key)
  {
  }

  lemma ExportedPath(node: Node, from: string, conns: seq<Connection>, key: Key)
    requires (node.kind.LaunchAgent? || node.kind.Script?) && PathKey(key) && FilledAt(node.config, key).Some?
    ensures TextAt(Exported(node, from, conns).config, key) == Some(ReplacePath(FilledAt(node.config, key).value, from))
  {
    var one := MovedPath(node.config, ProjectPath, from);
    var two := MovedPath(one, Cwd, from);
    var three := MovedPath(two, ExistingWorktreePath, from);
    MovedAt(node.config, ProjectPath, from, key);
    MovedAt(one, Cwd, from, key);
    MovedAt(two, ExistingWorktreePath, from, key);
    RestKept(node.kind, node.config, from, three, key);
    var config := Portable(node.kind, node.config, from);
    assert TextAt(Unbound(config, SecretsFrom), key) == TextAt(config, key);
  }

  lemma RestKept(kind: Kind, config: Config, from: string, moved: Config, key: Key)
    requires (kind.LaunchAgent? || kind.Script?) && PathKey(key)
    requires moved == MovedPath(MovedPath(MovedPath(config, ProjectPath, from), Cwd, from), ExistingWorktreePath, from)
    ensures TextAt(Portable(kind, config, from), key) == TextAt(moved, key)
  {
  }

  lemma ImportedText(node: Node, needs: seq<Requirement>, to: Project, conns: seq<Connection>, token: string, key: Key)
    requires TextAt(node.config, key).Some? && (node.kind.LaunchAgent? || node.kind.Script?) && !key.SecretsFrom?
    ensures TextAt(Imported(node, needs, to, conns, token).config, key)
      == Some(Resolved(TextAt(node.config, key).value, to))
  {
    BoundElsewhere(Settled(node.kind, node.config, to), SecretsFrom, needs, conns, |needs|, key);
  }

  lemma {:induction false} BoundElsewhere(
      config: Config, key: Key, needs: seq<Requirement>, conns: seq<Connection>, n: nat, other: Key)
    requires n <= |needs| && other != key
    ensures (other in BoundBy(config, key, needs, conns, n) <==> other in config)
    ensures other in config ==> BoundBy(config, key, needs, conns, n)[other] == config[other]
  {
    if n > 0 {
      BoundElsewhere(config, key, needs, conns, n - 1, other);
    }
  }

  /** Every path a step names goes through the rewriting and the substitution, wherever it lies. */
  lemma PathsGoThrough(
      nodes: seq<Node>, i: nat, from: string, conns: seq<Connection>, to: Project, there: seq<Connection>,
      token: string, key: Key)
    requires i < |nodes| && UniqueNodes(nodes) && PathKey(key)
    requires nodes[i].kind.LaunchAgent? || nodes[i].kind.Script?
    requires FilledAt(nodes[i].config, key).Some?
    ensures TextAt(Through(nodes, i, from, conns, to, there, token).config, key)
      == Some(Resolved(ReplacePath(FilledAt(nodes[i].config, key).value, from), to))
  {
    ThroughIs(nodes, i, from, conns, to, there, token);
    ExportedPath(nodes[i], from, conns, key);
    ImportedText(Exported(nodes[i], from, conns), OptionSeq(NodeNeed(nodes[i], from, conns)), to, there, token, key);
  }

  /** Every rewritten path in the exporting project arrives at the same place in the importing one. */
  lemma PathsMove(
      nodes: seq<Node>, i: nat, from: string, conns: seq<Connection>, to: Project, there: seq<Connection>,
      token: string, key: Key)
    requires i < |nodes| && UniqueNodes(nodes) && PathKey(key)
    requires nodes[i].kind.LaunchAgent? || nodes[i].kind.Script?
    requires FilledAt(nodes[i].config, key).Some?
    requires var value := FilledAt(nodes[i].config, key).value; Inside(value, from) && Unmarked(Tail(value, from), to)
    ensures TextAt(Through(nodes, i, from, conns, to, there, token).config, key) ==
      Some(DropSeparators(to.path) + Tail(FilledAt(nodes[i].config, key).value, from))
  {
    PathsGoThrough(nodes, i, from, conns, to, there, token, key);
    MovesWithProject(FilledAt(nodes[i].config, key).value, from, to);
  }

  // ---- connections ----

  predicate DistinctIds(conns: seq<Connection>) {
    forall i, j :: 0 <= i < j < |conns| ==> conns[i].id != conns[j].id
  }

  lemma {:induction false} FoundById(conns: seq<Connection>, i: nat)
    requires i < |conns| && DistinctIds(conns)
    ensures ById(conns, conns[i].id) == Some(conns[i])
  {
    if i > 0 {
      assert conns[0].id != conns[i].id;
      FoundById(conns[1..], i - 1);
    }
  }

  /** No other connection shares both its connector and its name. */
  predicate Recognizable(conns: seq<Connection>, i: nat)
    requires i < |conns|
  {
    && conns[i].name != "" && ConnectorOf(conns[i]) != ""
    && forall j ::
      0 <= j < |conns| && j != i ==> ConnectorOf(conns[j]) != ConnectorOf(conns[i]) || conns[j].name != conns[i].name
  }

  lemma NameResolves(r: Requirement, conns: seq<Connection>, i: nat)
    requires i < |conns| && Recognizable(conns, i) && Picks(r, conns[i], true)
    ensures ResolveRequirement(r, conns) == Some(conns[i].id)
  {
    assert OnlyOne(r, conns, true, |conns|, i);
    AnswerResolves(r, conns, i);
  }

  /** A trigger or action bound to a recognizable connection is bound to it again. */
  lemma Rebinds(nodes: seq<Node>, i: nat, from: string, conns: seq<Connection>, to: Project, token: string, c: nat)
    requires i < |nodes| && UniqueNodes(nodes) && c < |conns| && DistinctIds(conns) && Recognizable(conns, c)
    requires BoundKey(nodes[i].kind, nodes[i].config) == Some(ConnectionId)
      && FilledAt(nodes[i].config, ConnectionId) == Some(conns[c].id)
    ensures TextAt(Through(nodes, i, from, conns, to, conns, token).config, ConnectionId) == Some(conns[c].id)
  {
    var node := nodes[i];
    ThroughIs(nodes, i, from, conns, to, conns, token);
    FoundById(conns, c);
    var config := Portable(node.kind, node.config, from);
    assert config == node.config;
    var need := NeedOf(node.id, ConnectionId, config, conns).value;
    assert NodeNeed(node, from, conns) == Some(need);
    NameResolves(need, conns, c);
    BoundOnce(Exported(node, from, conns), need, to, conns, token);
  }

  /** A request bound to a recognizable auth profile is bound to it again. */
  lemma RebindsProfile(
      nodes: seq<Node>, i: nat, from: string, conns: seq<Connection>, to: Project, token: string, c: nat)
    requires i < |nodes| && UniqueNodes(nodes) && c < |conns| && DistinctIds(conns) && Recognizable(conns, c)
    requires nodes[i].kind.HttpRequest? && FilledAt(nodes[i].config, ProfileConnectionId) == Some(conns[c].id)
    requires ConnectorOf(conns[c]) == HTTP_PROFILE_CONNECTOR
    ensures TextAt(Through(nodes, i, from, conns, to, conns, token).config, ProfileConnectionId) == Some(conns[c].id)
  {
    var node := nodes[i];
    ThroughIs(nodes, i, from, conns, to, conns, token);
    FoundById(conns, c);
    var need := HttpProfileNeed(node.id, conns[c].name);
    assert NodeNeed(node, from, conns) == Some(need);
    NameResolves(need, conns, c);
    BoundOnce(Exported(node, from, conns), need, to, conns, token);
  }

  lemma BoundOnce(node: Node, need: Requirement, to: Project, conns: seq<Connection>, token: string)
    requires BoundKey(node.kind, node.config).Some? && !BindsOnlyByHand(need) && ResolveRequirement(need, conns).Some?
    ensures var key := BoundKey(node.kind, node.config).value;
      TextAt(Imported(node, [need], to, conns, token).config, key) == Some(ResolveRequirement(need, conns).value)
  {
    var key := BoundKey(node.kind, node.config).value;
    var settled := Settled(node.kind, node.config, to);
    assert BoundBy(settled, key, [need], conns, 0) == settled;
    assert BoundBy(settled, key, [need], conns, 1) == settled[key := Text(ResolveRequirement(need, conns).value)];
  }

  /** An import leaves a script's key unset exactly when no plain requirement of the node's has an answer here. */
  lemma SecretStaysUnsetIff(node: Node, needs: seq<Requirement>, to: Project, conns: seq<Connection>, token: string)
    requires node.kind.Script?
    ensures SecretsFrom !in Imported(node, needs, to, conns, token).config <==>
      forall r :: r in needs ==> BindsOnlyByHand(r) || ResolveRequirement(r, conns).None?
  {
    var settled := Settled(node.kind, node.config, to);
    BindsIff(settled, SecretsFrom, needs, conns, |needs|);
    assert needs[..|needs|] == needs;
  }

  lemma {:induction false} BindsIff(config: Config, key: Key, needs: seq<Requirement>, conns: seq<Connection>, n: nat)
    requires n <= |needs|
    ensures key in BoundBy(config, key, needs, conns, n) <==>
      key in config || exists r :: r in needs[..n] && !BindsOnlyByHand(r) && ResolveRequirement(r, conns).Some?
  {
    if n > 0 {
      BindsIff(config, key, needs, conns, n - 1);
      assert needs[..n] == needs[..n - 1] + [needs[n - 1]];
    }
  }

  /** A requirement written by hand without marking the key as a script's secret does bind it. */
  lemma PlainNeedBindsSecret(node: Node, c: Connection, to: Project, token: string)
    requires node.kind.Script? && ConnectorOf(c) != "" && c.name != ""
    ensures
      var need := ConnectionNeed(node.id, ConnectorOf(c), c.name, None, false);
      TextAt(Imported(node, [need], to, [c], token).config, SecretsFrom) == Some(c.id)
  {
    var need := ConnectionNeed(node.id, ConnectorOf(c), c.name, None, false);
    NameResolves(need, [c], 0);
    BoundOnce(node, need, to, [c], token);
  }

  /** What an export says of a script's key never binds it, wherever the file goes. */
  lemma SecretsStayUnbound(
      nodes: seq<Node>, i: nat, from: string, conns: seq<Connection>, to: Project, there: seq<Connection>,
      token: string)
    requires i < |nodes| && UniqueNodes(nodes) && nodes[i].kind.Script?
    ensures SecretsFrom !in Through(nodes, i, from, conns, to, there, token).config
  {
    ThroughIs(nodes, i, from, conns, to, there, token);
    var node := Exported(nodes[i], from, conns);
    var needs := OptionSeq(NodeNeed(nodes[i], from, conns));
    SecretStaysUnsetIff(node, needs, to, there, token);
  }

  /** A webhook's secret does not travel: the import has one of its own. */
  lemma HookTokenIsMinted(
      nodes: seq<Node>, i: nat, from: string, conns: seq<Connection>, to: Project, there: seq<Connection>,
      token: string)
    requires i < |nodes| && UniqueNodes(nodes) && nodes[i].kind.Trigger?
      && TextAt(nodes[i].config, TriggerType) == Some("webhook")
    ensures TextAt(Through(nodes, i, from, conns, to, there, token).config, HookToken) == Some(token)
  {
    ThroughIs(nodes, i, from, conns, to, there, token);
    assert |"webhook"| != |"connectorPoll"|;
    assert |"webhook"| < |PROJECT_PATH_TOKEN| && |"webhook"| < |PROJECT_NAME_TOKEN|;
    assert Resolved("webhook", to) == "webhook" && Resolved("", to) == "";
  }
}
