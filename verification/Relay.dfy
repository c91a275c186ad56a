/** The closure `relay` (packages/mcp/src/relay.ts) as a state machine: a step is what runs from one await to the next,
  * and the events are what vornd, the network and the clock do.
  */
module Relay {
  import opened Wrappers

  // ---- what travels ----

  datatype Upstream = Upstream(port: nat)

  datatype SessionId = SessionId(token: nat)

  datatype Session = Session(id: Option<SessionId>, protocol: Option<nat>)

  const NO_SESSION := Session(None, None)

  datatype Method = Initialize | Initialized | ToolsCall | OtherMethod | NoMethod

  datatype Message = Message(kind: Method, id: Option<nat>)

  predicate IsRequest(m: Message) {
    !m.kind.NoMethod? && m.id.Some?
  }

  datatype Post = Post(to: Upstream, message: Message, carried: Session)

  /** A message in vornd's answer; `version` is the protocol it names, if it does. */
  datatype Answer = Answer(id: Option<nat>, version: Option<nat>)

  /** What becomes of a POST before its body is read. */
  datatype Reply = NotConnected | Lost | Head(status: nat, session: Option<SessionId>)

  /** The body: it breaks off, or holds messages, or nothing that parses. */
  datatype Body = BrokenOff | Text(answers: Option<seq<Answer>>)

  /** What the agent is told on account of one message. */
  datatype Said = Answered(exchange: nat, answer: Answer) | Unanswered(id: nat)

  // ---- the state ----

  /** How an exchange fails: the tools cannot have seen the message, or may have, or vornd itself said no. */
  datatype Failure = Unsent | Broken | Final

  datatype Outcome = Back | GaveUp

  datatype Stage =
    | HeadWait(attempt: nat)
    | Posting(to: Upstream, carried: Session, seen: nat)
    | Reading(to: Upstream, seen: nat, status: nat, offered: Option<SessionId>)
    | Sending(answers: seq<Answer>, k: nat)
    | Returned(answers: seq<Answer>)
    | Failed(failure: Failure, seen: nat)
    | AwaitOutcome(attempt: nat)
    | Resolved(outcome: Outcome)
    | Ended(answered: Option<seq<Answer>>)
    | Closed(answered: Option<seq<Answer>>)

  /** One `deliver`, with all it has posted, how often the tools took it and what the agent was told. */
  datatype Delivery = Delivery(message: Message, stage: Stage, resends: nat, posts: seq<Post>, taken: nat,
      said: seq<Said>)

  datatype Recon = Idle | Locating | Opening(to: Upstream) | Noting(to: Upstream, session: Session)
    | Opened(to: Upstream, session: Session) | Installed | Thrown | Sleeping | GivenUp

  /** The connection: where vornd is, the session there, whether vornd ever accepted anything.
    * `issued` records every session id handed out in answer to an initialize, and by which vornd.
    */
  datatype Line = Line(upstream: Upstream, session: Session, reached: bool, closing: bool,
                       issued: set<(Upstream, SessionId)>, deleted: Option<Post>)

  /** The handshake messages that were last answered. */
  datatype Memory = Memory(initialize: Option<Message>, initialized: Option<Message>)

  /** Reconnects: `recon` and `trail` are the one in flight and what its latest attempt posted;
    * `starts` and `outcomes` record the epochs they started in and how they ended.
    */
  datatype Repair = Repair(
    epoch: nat, lastReconnect: Outcome, reconnecting: Option<nat>, recon: Recon, trail: seq<Post>, starts: seq<nat>,
    outcomes: seq<Outcome>)

  /** What reconnects read and sent: the handshake as the latest attempt read it, the session its initialize was
    * answered with, how many attempts there were, and every POST they made.
    */
  datatype Replay = Replay(read: Memory, answered: Option<Session>, attempts: nat, posts: seq<Post>)

  /** The variables of `relay`'s closure, and its deliveries. */
  datatype State = State(line: Line, memory: Memory, repair: Repair, replay: Replay, deliveries: seq<Delivery>)

  function Start(first: Upstream): State {
    State(
      Line(first, NO_SESSION, false, false, {}, None),
      Memory(None, None),
      Repair(0, Back, None, Idle, [], [], []),
      Replay(Memory(None, None), None, 0, []),
      [])
  }

  const MAX_RESENDS := 3

  // ---- one delivery ----

  predicate Succeeds(status: nat) {
    200 <= status < 300
  }

  /** From the loop's head: wait for a reconnect in flight, or post. */
  function Enter(s: State, d: Delivery): Delivery {
    if s.repair.reconnecting.Some? then d.(stage := HeadWait(s.repair.reconnecting.value)) else Posted(s, d)
  }

  /** Goes out with the session held; an initialize goes out with none. */
  function Posted(s: State, d: Delivery): Delivery {
    var carried := if d.message.kind.Initialize? then NO_SESSION else s.line.session;
    var post := Post(s.line.upstream, d.message, carried);
    d.(stage := Posting(s.line.upstream, carried, s.repair.epoch), posts := d.posts + [post])
  }

  /** What vornd's status line settles before the body is read. */
  function AfterReply(reached: bool, d: Delivery, reply: Reply, taken: bool): Delivery
    requires d.stage.Posting?
  {
    var now := if taken then d.(taken := d.taken + 1) else d;
    match reply
    case NotConnected => now.(stage := Failed(Unsent, d.stage.seen))
    case Lost => now.(stage := Failed(Broken, d.stage.seen))
    case Head(status, session) =>
      if status == 404 && d.stage.carried.id.Some? then now.(stage := Failed(Unsent, d.stage.seen))
      else if status == 503 || (reached && (status == 404 || status == 401)) then
        now.(stage := Failed(Unsent, d.stage.seen))
      else now.(stage := Reading(d.stage.to, d.stage.seen, status, session))
  }

  /** The answers from the `k`th on: one goes to the agent, or the exchange is over. */
  function Passed(d: Delivery, answers: seq<Answer>, k: nat): Delivery
    requires k <= |answers|
  {
    if k == |answers| then d.(stage := Returned(answers))
    else d.(stage := Sending(answers, k + 1), said := d.said + [Answered(|d.posts|, answers[k])])
  }

  function AfterBody(d: Delivery, body: Body): Delivery
    requires d.stage.Reading?
  {
    if body.BrokenOff? then d.(stage := Failed(Broken, d.stage.seen))
    else if !Succeeds(d.stage.status) || body.answers.None? then d.(stage := Failed(Final, d.stage.seen))
    else Passed(d, body.answers.value, 0)
  }

  /** Whether a failure ends the delivery rather than bringing on a reconnect. */
  predicate Stops(closing: bool, d: Delivery)
    requires d.stage.Failed?
  {
    || d.stage.failure.Final?
    || (d.stage.failure.Broken? && d.message.kind.ToolsCall?)
    || closing
    || d.resends == MAX_RESENDS
  }

  /** A reconnect that finished since this message was posted answers for it. */
  function AfterJudge(s: State, d: Delivery): Delivery
    requires d.stage.Failed?
  {
    if Stops(s.line.closing, d) then d.(stage := Ended(None))
    else if d.stage.seen != s.repair.epoch then d.(stage := Resolved(s.repair.lastReconnect))
    else if s.repair.reconnecting.Some? then d.(stage := AwaitOutcome(s.repair.reconnecting.value))
    else d.(stage := AwaitOutcome(|s.repair.starts|))
  }

  predicate StartsReconnect(s: State, d: Delivery) {
    d.stage.Failed? && !Stops(s.line.closing, d) && d.stage.seen == s.repair.epoch && s.repair.reconnecting.None?
  }

  function AfterOutcome(s: State, d: Delivery, outcome: Outcome): Delivery {
    if outcome.GaveUp? then d.(stage := Ended(None)) else Enter(s, d.(resends := d.resends + 1))
  }

  predicate CanWake(outcomes: seq<Outcome>, d: Delivery) {
    match d.stage
    case HeadWait(attempt) => attempt < |outcomes|
    case AwaitOutcome(attempt) => attempt < |outcomes|
    case Resolved(_) => true
    case _ => false
  }

  function AfterWake(s: State, d: Delivery): Delivery
    requires CanWake(s.repair.outcomes, d)
  {
    match d.stage
    case HeadWait(_) => Posted(s, d)
    case AwaitOutcome(attempt) => AfterOutcome(s, d, s.repair.outcomes[attempt])
    case Resolved(outcome) => AfterOutcome(s, d, outcome)
  }

  /** A request that failed is answered with an error of its own. */
  function AfterReport(d: Delivery): Delivery
    requires d.stage.Ended?
  {
    var now := d.(stage := Closed(d.stage.answered));
    if d.stage.answered.Some? || !IsRequest(d.message) then now
    else now.(said := d.said + [Unanswered(d.message.id.value)])
  }

  // ---- the events ----

  /** What can happen to a delivery. */
  datatype Act = Wake | Replied(reply: Reply, taken: bool) | BodyEnds(body: Body) | Sent | Conclude | Judge | Report

  /** What can happen to the reconnect in flight. */
  datatype Fix = Located(found: Option<Upstream>) | InitializeFails
    | InitializeAnswered(id: Option<SessionId>, protocol: Option<nat>)
    | NoteAnswered(ok: bool) | Install | Settle | Catch(expired: bool) | SleepEnds

  datatype Event = Arrive(message: Message) | At(i: nat, act: Act) | Fixing(fix: Fix) | CloseLocal | EndSession

  /** A POST vornd turns away or never hears of has not reached its tools. */
  predicate Untaken(reply: Reply) {
    match reply
    case NotConnected => true
    case Lost => false
    case Head(status, _) => status == 401 || status == 404 || status == 503
  }

  predicate Acts(outcomes: seq<Outcome>, d: Delivery, act: Act) {
    match act
    case Wake => CanWake(outcomes, d)
    case Replied(reply, taken) => d.stage.Posting? && (Untaken(reply) ==> !taken)
    case BodyEnds(_) => d.stage.Reading?
    case Sent => d.stage.Sending? && d.stage.k <= |d.stage.answers|
    case Conclude => d.stage.Returned?
    case Judge => d.stage.Failed?
    case Report => d.stage.Ended?
  }

  predicate Fixes(recon: Recon, fix: Fix) {
    match fix
    case Located(_) => recon.Locating?
    case InitializeFails => recon.Opening?
    case InitializeAnswered(_, _) => recon.Opening?
    case NoteAnswered(_) => recon.Noting?
    case Install => recon.Opened?
    case Settle => recon.Installed? || recon.GivenUp?
    case Catch(_) => recon.Thrown?
    case SleepEnds => recon.Sleeping?
  }

  predicate Enabled(s: State, e: Event) {
    match e
    case Arrive(_) => true
    case At(i, act) => i < |s.deliveries| && Acts(s.repair.outcomes, s.deliveries[i], act)
    case Fixing(fix) => Fixes(s.repair.recon, fix)
    case CloseLocal => !s.line.closing
    case EndSession => s.line.closing && s.line.deleted.None? && s.line.session.id.Some?
  }

  function NextDelivery(s: State, d: Delivery, act: Act): Delivery
    requires Acts(s.repair.outcomes, d, act)
  {
    match act
    case Wake => AfterWake(s, d)
    case Replied(reply, taken) => AfterReply(s.line.reached, d, reply, taken)
    case BodyEnds(body) => AfterBody(d, body)
    case Sent => Passed(d, d.stage.answers, d.stage.k)
    case Conclude => d.(stage := Ended(Some(d.stage.answers)))
    case Judge => AfterJudge(s, d)
    case Report => AfterReport(d)
  }

  function Arrived(s: State, m: Message): Delivery {
    Enter(s, Delivery(m, Resolved(Back), 0, [], 0, []))
  }

  function NextDeliveries(s: State, e: Event): (next: seq<Delivery>)
    requires Enabled(s, e)
  {
    match e
    case Arrive(m) => s.deliveries + [Arrived(s, m)]
    case At(i, act) => s.deliveries[i := NextDelivery(s, s.deliveries[i], act)]
    case _ => s.deliveries
  }

  function Issue(issued: set<(Upstream, SessionId)>, to: Upstream, id: Option<SessionId>): set<(Upstream, SessionId)> {
    if id.Some? then issued + {(to, id.value)} else issued
  }

  /** An accepted body: vornd was reached, and an initialize opened a session. */
  function LineAfterBody(line: Line, d: Delivery, body: Body): Line
    requires d.stage.Reading?
  {
    if body.BrokenOff? || !Succeeds(d.stage.status) then line
    else
      var now := if d.message.kind.Initialize? then
          var issued := Issue(line.issued, d.stage.to, d.stage.offered);
          line.(reached := true, session := Session(d.stage.offered, None), issued := issued)
        else line.(reached := true);
      if body.answers.None? then now else Noted(now, d.message, body.answers.value, 0)
  }

  /** Passing an answer to an initialize on notes the protocol it settles on. */
  function Noted(line: Line, m: Message, answers: seq<Answer>, k: nat): Line
    requires k <= |answers|
  {
    if k < |answers| && m.kind.Initialize? && answers[k].version.Some? then
      line.(session := Session(line.session.id, answers[k].version))
    else line
  }

  function NextLine(s: State, e: Event): Line
    requires Enabled(s, e)
  {
    match e
    case At(i, BodyEnds(body)) => LineAfterBody(s.line, s.deliveries[i], body)
    case At(i, Sent) => Noted(s.line, s.deliveries[i].message, s.deliveries[i].stage.answers, s.deliveries[i].stage.k)
    case Fixing(InitializeAnswered(id, _)) => s.line.(issued := Issue(s.line.issued, s.repair.recon.to, id))
    case Fixing(Install) => s.line.(upstream := s.repair.recon.to, session := s.repair.recon.session)
    case CloseLocal => s.line.(closing := true)
    case EndSession => s.line.(deleted := Some(Post(s.line.upstream, Message(NoMethod, None), s.line.session)))
    case _ => s.line
  }

  function NextMemory(s: State, e: Event): Memory
    requires Enabled(s, e)
  {
    match e
    case At(i, Conclude) =>
      var m := s.deliveries[i].message;
      if m.kind.Initialize? then s.memory.(initialize := Some(m))
      else if m.kind.Initialized? then s.memory.(initialized := Some(m))
      else s.memory
    case _ => s.memory
  }

  /** The reconnect in flight: locate, replay the handshake, install, and settle the outcome. */
  function NextFix(r: Repair, memory: Memory, closing: bool, fix: Fix): Repair
    requires Fixes(r.recon, fix)
  {
    match fix
    case Located(found) =>
      if found.None? then r.(recon := Thrown)
      else if memory.initialize.None? then r.(recon := Opened(found.value, NO_SESSION))
      else
        var post := Post(found.value, memory.initialize.value, NO_SESSION);
        r.(recon := Opening(found.value), trail := r.trail + [post])
    case InitializeFails => r.(recon := Thrown)
    case InitializeAnswered(id, protocol) =>
      var agreed := Session(id, protocol);
      if memory.initialized.None? then r.(recon := Opened(r.recon.to, agreed))
      else
        var post := Post(r.recon.to, memory.initialized.value, agreed);
        r.(recon := Noting(r.recon.to, agreed), trail := r.trail + [post])
    case NoteAnswered(ok) => r.(recon := if ok then Opened(r.recon.to, r.recon.session) else Thrown)
    case Install => r.(recon := Installed)
    case Settle =>
      var outcome := if r.recon.Installed? then Back else GaveUp;
      var known := r.outcomes + [outcome];
      r.(recon := Idle, epoch := r.epoch + 1, lastReconnect := outcome, reconnecting := None, outcomes := known)
    case Catch(expired) => r.(recon := if expired || closing then GivenUp else Sleeping)
    case SleepEnds => r.(recon := Locating, trail := [])
  }

  function NextRepair(s: State, e: Event): Repair
    requires Enabled(s, e)
  {
    match e
    case At(i, Judge) =>
      if StartsReconnect(s, s.deliveries[i]) then
        var starts := s.repair.starts + [s.repair.epoch];
        s.repair.(reconnecting := Some(|s.repair.starts|), starts := starts, recon := Locating, trail := [])
      else s.repair
    case Fixing(fix) => NextFix(s.repair, s.memory, s.line.closing, fix)
    case _ => s.repair
  }

  /** `initialize` is read once vornd is located, the note once the initialize is answered. */
  function ReadAfter(read: Memory, memory: Memory, e: Event): Memory {
    match e
    case Fixing(Located(_)) => Memory(memory.initialize, None)
    case Fixing(InitializeAnswered(_, _)) => Memory(read.initialize, memory.initialized)
    case _ => read
  }

  function AnsweredAfter(answered: Option<Session>, e: Event): Option<Session> {
    match e
    case Fixing(Located(_)) => None
    case Fixing(InitializeAnswered(id, protocol)) => Some(Session(id, protocol))
    case _ => answered
  }

  /** What a trail gains was posted. */
  function PostsAfter(posts: seq<Post>, before: seq<Post>, after: seq<Post>): seq<Post> {
    if |after| > |before| then posts + after[|before|..] else posts
  }

  /** An attempt begins whenever vornd comes to be looked for. */
  function NextReplay(replay: Replay, memory: Memory, before: Repair, after: Repair, e: Event): Replay {
    Replay(
      ReadAfter(replay.read, memory, e),
      AnsweredAfter(replay.answered, e),
      if after.recon.Locating? && !before.recon.Locating? then replay.attempts + 1 else replay.attempts,
      PostsAfter(replay.posts, before.trail, after.trail))
  }

  function Step(s: State, e: Event): State
    requires Enabled(s, e)
  {
    var repair := NextRepair(s, e);
    var replay := NextReplay(s.replay, s.memory, s.repair, repair, e);
    State(NextLine(s, e), NextMemory(s, e), repair, replay, NextDeliveries(s, e))
  }

  // ---- runs ----

  predicate Legal(s: State, run: seq<Event>)
    decreases |run|
  {
    run == [] || (Enabled(s, run[0]) && Legal(Step(s, run[0]), run[1..]))
  }

  function Play(s: State, run: seq<Event>): State
    requires Legal(s, run)
    decreases |run|
  {
    if run == [] then s else Play(Step(s, run[0]), run[1..])
  }
}
