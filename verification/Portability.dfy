/** Workflows leaving one machine and entering another (`toPortable`, `fromPortable`, `resolveRequirement`,
  * packages/shared/src/workflow-portability.ts).
  */
module Portability {
  import opened Wrappers
  import opened PortablePaths

  /** The config keys the rewriting knows, and any other. */
  datatype Key =
    | ProjectPath
    | Cwd
    | ExistingWorktreePath
    | ProjectName
    | RemoteHostId
    | ConnectionId
    | ProfileConnectionId
    | SecretsFrom
    | TriggerType
    | HookToken
    | EventName
    | ConnectorId
    | Named(name: string)

  /** `Nothing` stands for the values that are neither text nor true. */
  datatype Value = Text(s: string) | Nothing | Other(n: nat)

  type Config = map<Key, Value>

  datatype Kind = Trigger | LaunchAgent | Script | CallConnectorAction | HttpRequest | OtherStep

  datatype Node = Node(id: string, kind: Kind, config: Config)

  /** What a step needs bound; `secret` marks a script's key, which no import binds. */
  datatype Requirement =
    | ConnectionNeed(nodeId: string, connectorId: string, name: string, event: Option<string>, secret: bool)
    | HttpProfileNeed(nodeId: string, name: string)

  datatype Connection = Connection(id: string, name: string, connectorId: string, packaged: Option<string>)

  const HTTP_PROFILE_CONNECTOR: string := "http"

  /** For a packaged connector the id of the package, which then counts instead of the field. */
  function ConnectorOf(c: Connection): string {
    if c.packaged.Some? && c.packaged.value != "" then c.packaged.value else c.connectorId
  }

  function TextAt(config: Config, key: Key): Option<string> {
    if key in config && config[key].Text? then Some(config[key].s) else None
  }

  /** The text there, unless it is empty. */
  function FilledAt(config: Config, key: Key): Option<string> {
    if TextAt(config, key) == Some("") then None else TextAt(config, key)
  }

  /** Where a step's configuration holds its connection's id. */
  function BoundKey(kind: Kind, config: Config): Option<Key> {
    match kind
    case Trigger => if TextAt(config, TriggerType) == Some("connectorPoll") then Some(ConnectionId) else None
    case CallConnectorAction => Some(ConnectionId)
    case HttpRequest => Some(ProfileConnectionId)
    case Script => Some(SecretsFrom)
    case _ => None
  }

  predicate OptionalKey(key: Key) {
    key.ProfileConnectionId? || key.SecretsFrom?
  }

  // ---- resolving a requirement ----

  predicate Fits(r: Requirement, c: Connection) {
    if r.HttpProfileNeed? then ConnectorOf(c) == HTTP_PROFILE_CONNECTOR
    else r.connectorId != "" && ConnectorOf(c) == r.connectorId
  }

  predicate Picks(r: Requirement, c: Connection, byName: bool) {
    Fits(r, c) && (byName ==> c.name == r.name)
  }

  function Candidates(r: Requirement, conns: seq<Connection>, byName: bool, n: nat): seq<Connection>
    requires n <= |conns|
  {
    if n == 0 then []
    else if Picks(r, conns[n - 1], byName) then Candidates(r, conns, byName, n - 1) + [conns[n - 1]]
    else Candidates(r, conns, byName, n - 1)
  }

  /** The one connection of that connector and name, else the one of that connector; two of either decide nothing. */
  function ResolveRequirement(r: Requirement, conns: seq<Connection>): Option<string> {
    var candidates := Candidates(r, conns, false, |conns|);
    var named := Candidates(r, conns, true, |conns|);
    if candidates == [] then None
    else if r.name != "" && |named| == 1 then Some(named[0].id)
    else if |candidates| == 1 then Some(candidates[0].id)
    else None
  }

  ghost predicate NoneFits(r: Requirement, conns: seq<Connection>, byName: bool, n: nat)
    requires n <= |conns|
  {
    forall j :: 0 <= j < n ==> !Picks(r, conns[j], byName)
  }

  /** Only the `i`th connection fits. */
  ghost predicate OnlyOne(r: Requirement, conns: seq<Connection>, byName: bool, n: nat, i: nat)
    requires n <= |conns|
  {
    i < n && Picks(r, conns[i], byName) && forall j :: 0 <= j < n && j != i ==> !Picks(r, conns[j], byName)
  }

  lemma {:induction false} EmptyIffNone(r: Requirement, conns: seq<Connection>, byName: bool, n: nat)
    requires n <= |conns|
    ensures Candidates(r, conns, byName, n) == [] <==> NoneFits(r, conns, byName, n)
  {
    if n > 0 {
      EmptyIffNone(r, conns, byName, n - 1);
    }
  }

  lemma {:induction false} OneIsSole(r: Requirement, conns: seq<Connection>, byName: bool, n: nat, i: nat)
    requires n <= |conns| && OnlyOne(r, conns, byName, n, i)
    ensures Candidates(r, conns, byName, n) == [conns[i]]
  {
    if i == n - 1 {
      EmptyIffNone(r, conns, byName, n - 1);
    } else {
      OneIsSole(r, conns, byName, n - 1, i);
    }
  }

  lemma {:induction false} SoleIsOne(r: Requirement, conns: seq<Connection>, byName: bool, n: nat) returns (i: nat)
    requires n <= |conns| && |Candidates(r, conns, byName, n)| == 1
    ensures OnlyOne(r, conns, byName, n, i)
  {
    if Picks(r, conns[n - 1], byName) {
      EmptyIffNone(r, conns, byName, n - 1);
      i := n - 1;
    } else {
      i := SoleIsOne(r, conns, byName, n - 1);
    }
  }

  ghost predicate NoOneByName(r: Requirement, conns: seq<Connection>) {
    r.name == "" || forall i :: !OnlyOne(r, conns, true, |conns|, i)
  }

  /** The `i`th is the one of that connector and name; or, there being none, the one of that connector. */
  ghost predicate Answers(r: Requirement, conns: seq<Connection>, i: nat) {
    || (r.name != "" && OnlyOne(r, conns, true, |conns|, i))
    || (NoOneByName(r, conns) && OnlyOne(r, conns, false, |conns|, i))
  }

  lemma AnswerResolves(r: Requirement, conns: seq<Connection>, i: nat)
    requires Answers(r, conns, i)
    ensures i < |conns| && ResolveRequirement(r, conns) == Some(conns[i].id)
  {
    EmptyIffNone(r, conns, false, |conns|);
    if r.name != "" && OnlyOne(r, conns, true, |conns|, i) {
      OneIsSole(r, conns, true, |conns|, i);
      assert Picks(r, conns[i], false);
    } else {
      OneIsSole(r, conns, false, |conns|, i);
      if r.name != "" && |Candidates(r, conns, true, |conns|)| == 1 {
        var j := SoleIsOne(r, conns, true, |conns|);
      }
    }
  }

  lemma ResolvedAnswers(r: Requirement, conns: seq<Connection>) returns (i: nat)
    requires ResolveRequirement(r, conns).Some?
    ensures Answers(r, conns, i)
  {
    if r.name != "" && |Candidates(r, conns, true, |conns|)| == 1 {
      i := SoleIsOne(r, conns, true, |conns|);
    } else {
      i := SoleIsOne(r, conns, false, |conns|);
      if j: nat :| r.name != "" && OnlyOne(r, conns, true, |conns|, j) {
        OneIsSole(r, conns, true, |conns|, j);
      }
    }
  }

  /** A requirement resolves to a connection exactly when it is this machine's one answer. */
  lemma ResolvesIffAnswer(r: Requirement, conns: seq<Connection>, id: string)
    ensures ResolveRequirement(r, conns) == Some(id) <==> exists i: nat :: Answers(r, conns, i) && conns[i].id == id
  {
    if ResolveRequirement(r, conns) == Some(id) {
      var i := ResolvedAnswers(r, conns);
      AnswerResolves(r, conns, i);
      assert Answers(r, conns, i) && conns[i].id == id;
    }
    if i: nat :| Answers(r, conns, i) && conns[i].id == id {
      AnswerResolves(r, conns, i);
    }
  }

  /** Whatever is bound belongs to the connector that was asked for. */
  lemma NeverAnotherConnectors(r: Requirement, conns: seq<Connection>)
    requires ResolveRequirement(r, conns).Some?
    ensures exists c :: c in conns && c.id == ResolveRequirement(r, conns).value && Fits(r, c)
  {
    var i := ResolvedAnswers(r, conns);
    AnswerResolves(r, conns, i);
    assert conns[i] in conns && Fits(r, conns[i]);
  }

  // ---- export ----

  function MovedPath(config: Config, key: Key, projectPath: string): Config {
    if FilledAt(config, key).Some? then config[key := Text(ReplacePath(FilledAt(config, key).value, projectPath))]
    else config
  }

  /** The machine's paths replaced, its host forgotten. */
  function Portable(kind: Kind, config: Config, projectPath: string): Config {
    var hidden :=
      if kind.Trigger? && TextAt(config, TriggerType) == Some("webhook") then config[HookToken := Text("")]
      else config;
    if kind.LaunchAgent? || kind.Script? then
      var inProject := MovedPath(MovedPath(hidden, ProjectPath, projectPath), Cwd, projectPath);
      var moved := MovedPath(inProject, ExistingWorktreePath, projectPath);
      var renamed :=
        if FilledAt(moved, ProjectName).Some? then moved[ProjectName := Text(PROJECT_NAME_TOKEN)] else moved;
      renamed - {RemoteHostId}
    else hidden
  }

  function ById(conns: seq<Connection>, id: string): Option<Connection> {
    if conns == [] then None else if conns[0].id == id then Some(conns[0]) else ById(conns[1..], id)
  }

  /** What the step needs: what it was bound to, or, unless it may do without, the binding it lacks. */
  function NeedOf(nodeId: string, key: Key, config: Config, conns: seq<Connection>): Option<Requirement> {
    var bound := TextAt(config, key);
    if bound.None? || (bound.value == "" && OptionalKey(key)) then None
    else
      var source := ById(conns, bound.value);
      var name := if source.Some? then source.value.name else "";
      if key.ProfileConnectionId? then Some(HttpProfileNeed(nodeId, name))
      else
        var declared := TextAt(config, ConnectorId);
        var connector :=
          if source.Some? then ConnectorOf(source.value) else if declared.Some? then declared.value else "";
        Some(ConnectionNeed(nodeId, connector, name, FilledAt(config, EventName), key.SecretsFrom?))
  }

  function Unbound(config: Config, key: Key): Config {
    if OptionalKey(key) then config - {key} else config[key := Text("")]
  }

  function NodeNeed(node: Node, projectPath: string, conns: seq<Connection>): Option<Requirement> {
    var config := Portable(node.kind, node.config, projectPath);
    var key := BoundKey(node.kind, config);
    if key.Some? then NeedOf(node.id, key.value, config, conns) else None
  }

  function Exported(node: Node, projectPath: string, conns: seq<Connection>): Node {
    var config := Portable(node.kind, node.config, projectPath);
    if NodeNeed(node, projectPath, conns).Some? then node.(config := Unbound(config, BoundKey(node.kind, config).value))
    else node.(config := config)
  }

  /** The needs of the first `n` nodes, in order. */
  function Needs(nodes: seq<Node>, projectPath: string, conns: seq<Connection>, n: nat): seq<Requirement>
    requires n <= |nodes|
  {
    if n == 0 then []
    else
      var need := NodeNeed(nodes[n - 1], projectPath, conns);
      if need.Some? then Needs(nodes, projectPath, conns, n - 1) + [need.value]
      else Needs(nodes, projectPath, conns, n - 1)
  }

  method ToPortable(nodes: seq<Node>, projectPath: string, conns: seq<Connection>)
      returns (out: seq<Node>, needs: seq<Requirement>)
    ensures |out| == |nodes| && forall i :: 0 <= i < |nodes| ==> out[i] == Exported(nodes[i], projectPath, conns)
    ensures needs == Needs(nodes, projectPath, conns, |nodes|)
  {
    out, needs := [], [];
    for i := 0 to |nodes|
      invariant |out| == i && forall j :: 0 <= j < i ==> out[j] == Exported(nodes[j], projectPath, conns)
      invariant needs == Needs(nodes, projectPath, conns, i)
    {
      var need := NodeNeed(nodes[i], projectPath, conns);
      if need.Some? {
        needs := needs + [need.value];
      }
      out := out + [Exported(nodes[i], projectPath, conns)];
    }
  }

  // ---- import ----

  /** The ones of the first `n` requirements that are this node's, in order. */
  function NeedsFor(needs: seq<Requirement>, id: string, n: nat): seq<Requirement>
    requires n <= |needs|
  {
    if n == 0 then []
    else if needs[n - 1].nodeId == id then NeedsFor(needs, id, n - 1) + [needs[n - 1]]
    else NeedsFor(needs, id, n - 1)
  }

  predicate BindsOnlyByHand(r: Requirement) {
    r.ConnectionNeed? && r.secret
  }

  /** A carried optional id is dropped, and every text resolved against the project. */
  function Settled(kind: Kind, config: Config, project: Project): Config {
    var key := BoundKey(kind, config);
    var kept := if key.Some? && OptionalKey(key.value) then config - {key.value} else config;
    map k | k in kept :: if kept[k].Text? then Text(Resolved(kept[k].s, project)) else kept[k]
  }

  /** The first `n` needs bound, as far as this machine has an answer. */
  function BoundBy(config: Config, key: Key, needs: seq<Requirement>, conns: seq<Connection>, n: nat): Config
    requires n <= |needs|
  {
    if n == 0 then config
    else
      var before := BoundBy(config, key, needs, conns, n - 1);
      var r := needs[n - 1];
      var bound := ResolveRequirement(r, conns);
      if !BindsOnlyByHand(r) && bound.Some? then before[key := Text(bound.value)] else before
  }

  /** A webhook without a secret gets one of this install's own. */
  function Minted(kind: Kind, config: Config, token: string): Config {
    if kind.Trigger? && TextAt(config, TriggerType) == Some("webhook")
      && (HookToken !in config || config[HookToken] == Text("") || config[HookToken].Nothing?)
    then config[HookToken := Text(token)]
    else config
  }

  function Imported(
      node: Node, needs: seq<Requirement>, project: Project, conns: seq<Connection>, token: string): Node {
    var settled := Settled(node.kind, node.config, project);
    var key := BoundKey(node.kind, node.config);
    var bound := if key.Some? then BoundBy(settled, key.value, needs, conns, |needs|) else settled;
    node.(config := Minted(node.kind, bound, token))
  }

  /** The loop over one node's requirements. */
  method BindNode(
      settled: Config, key: Option<Key>, needs: seq<Requirement>, conns: seq<Connection>) returns (config: Config)
    ensures config == if key.Some? then BoundBy(settled, key.value, needs, conns, |needs|) else settled
  {
    config := settled;
    for i := 0 to |needs|
      invariant config == if key.Some? then BoundBy(settled, key.value, needs, conns, i) else settled
    {
      if BindsOnlyByHand(needs[i]) || key.None? {
        continue;
      }
      var resolved := ResolveRequirement(needs[i], conns);
      if resolved.Some? {
        config := config[key.value := Text(resolved.value)];
      }
    }
  }

  method FromPortable(
      nodes: seq<Node>, needs: seq<Requirement>, project: Project, conns: seq<Connection>, mint: nat -> string)
      returns (out: seq<Node>)
    ensures |out| == |nodes|
    ensures forall i ::
      0 <= i < |nodes| ==> out[i] == Imported(nodes[i], NeedsFor(needs, nodes[i].id, |needs|), project, conns, mint(i))
  {
    var bindings: map<string, seq<Requirement>> := map[];
    for i := 0 to |needs|
      invariant forall id :: (if id in bindings then bindings[id] else []) == NeedsFor(needs, id, i)
    {
      var id := needs[i].nodeId;
      bindings := bindings[id := (if id in bindings then bindings[id] else []) + [needs[i]]];
    }
    out := [];
    for i := 0 to |nodes|
      invariant |out| == i
      invariant forall j ::
        0 <= j < i ==> out[j] == Imported(nodes[j], NeedsFor(needs, nodes[j].id, |needs|), project, conns, mint(j))
    {
      var node := nodes[i];
      var mine := if node.id in bindings then bindings[node.id] else [];
      var settled := Settled(node.kind, node.config, project);
      var bound := BindNode(settled, BoundKey(node.kind, node.config), mine, conns);
      out := out + [node.(config := Minted(node.kind, bound, mint(i)))];
    }
  }
}
