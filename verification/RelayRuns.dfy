/** What holds however deliveries, reconnects, restarts and broken answers interleave (packages/mcp/src/relay.ts). */
module RelayRuns {
  import opened Wrappers
  import opened Relay

  // ---- one message ----

  /** What the agent has been told once `k` answers of the `n`th exchange are passed on. */
  function Told(n: nat, answers: seq<Answer>, k: nat): seq<Said>
    requires k <= |answers|
  {
    seq(k, j requires 0 <= j < k => Answered(n, answers[j]))
  }

  /** Whether vornd's tools cannot have taken a call yet. */
  predicate Untouched(stage: Stage) {
    || stage.HeadWait? || stage.Posting? || stage.AwaitOutcome? || stage.Resolved?
    || (stage.Failed? && stage.failure.Unsent?)
  }

  predicate SaidOk(d: Delivery) {
    match d.stage
    case Sending(answers, k) => k <= |answers| && d.said == Told(|d.posts|, answers, k)
    case Returned(answers) => d.said == Told(|d.posts|, answers, |answers|)
    case Ended(answered) => d.said == if answered.Some? then Told(|d.posts|, answered.value, |answered.value|) else []
    case Closed(answered) => d.said ==
      if answered.Some? then Told(|d.posts|, answered.value, |answered.value|)
      else if IsRequest(d.message) then [Unanswered(d.message.id.value)]
      else []
    case _ => d.said == []
  }

  predicate PostsOk(d: Delivery) {
    && d.resends <= MAX_RESENDS
    && (d.stage.AwaitOutcome? || d.stage.Resolved? ==> d.resends < MAX_RESENDS)
    && |d.posts| == (if d.stage.HeadWait? then d.resends else d.resends + 1)
    && (forall p :: p in d.posts ==> p.message == d.message)
  }

  predicate TakenOk(d: Delivery) {
    d.message.kind.ToolsCall? ==> d.taken <= 1 && (Untouched(d.stage) ==> d.taken == 0)
  }

  predicate DeliveryOk(d: Delivery) {
    SaidOk(d) && PostsOk(d) && TakenOk(d)
  }

  lemma EnterKeeps(s: State, d: Delivery)
    requires d.resends <= MAX_RESENDS && |d.posts| == d.resends && d.said == [] && TakenOk(d) && Untouched(d.stage)
    requires forall p :: p in d.posts ==> p.message == d.message
    ensures DeliveryOk(Enter(s, d)) && DeliveryOk(Posted(s, d))
  {
  }

  lemma ReplyKeeps(reached: bool, d: Delivery, reply: Reply, taken: bool)
    requires DeliveryOk(d) && d.stage.Posting? && (Untaken(reply) ==> !taken)
    ensures DeliveryOk(AfterReply(reached, d, reply, taken))
  {
  }

  lemma PassedKeeps(d: Delivery, answers: seq<Answer>, k: nat)
    requires DeliveryOk(d) && k <= |answers| && d.said == Told(|d.posts|, answers, k)
    requires d.stage.Reading? || d.stage.Sending?
    ensures DeliveryOk(Passed(d, answers, k))
  {
  }

  lemma WakeKeeps(s: State, d: Delivery)
    requires DeliveryOk(d) && CanWake(s.repair.outcomes, d)
    ensures DeliveryOk(AfterWake(s, d))
  {
    if d.stage.HeadWait? {
      EnterKeeps(s, d);
    } else {
      EnterKeeps(s, d.(resends := d.resends + 1));
    }
  }

  lemma DeliveryKeeps(s: State, d: Delivery, act: Act)
    requires Acts(s.repair.outcomes, d, act) && DeliveryOk(d)
    ensures DeliveryOk(NextDelivery(s, d, act))
  {
    match act
    case Wake => WakeKeeps(s, d);
    case Replied(reply, taken) => ReplyKeeps(s.line.reached, d, reply, taken);
    case BodyEnds(body) =>
      if Succeeds(d.stage.status) && body.Text? && body.answers.Some? {
        PassedKeeps(d, body.answers.value, 0);
      }
    case Sent => PassedKeeps(d, d.stage.answers, d.stage.k);
    case _ =>
  }

  ghost predicate DeliveriesOk(ds: seq<Delivery>) {
    forall j :: 0 <= j < |ds| ==> DeliveryOk(ds[j])
  }

  lemma DeliveriesKeep(s: State, e: Event)
    requires DeliveriesOk(s.deliveries) && Enabled(s, e)
    ensures DeliveriesOk(NextDeliveries(s, e))
  {
    match e
    case Arrive(m) => EnterKeeps(s, Delivery(m, Resolved(Back), 0, [], 0, []));
    case At(i, act) => DeliveryKeeps(s, s.deliveries[i], act);
    case _ =>
  }

  // ---- it ends ----

  function StagesLeft(stage: Stage): nat {
    match stage
    case HeadWait(_) => 8
    case Posting(_, _, _) => 7
    case Reading(_, _, _, _) => 6
    case Sending(_, _) => 5
    case Returned(_) => 4
    case Failed(_, _) => 3
    case AwaitOutcome(_) => 2
    case Resolved(_) => 2
    case Ended(_) => 1
    case Closed(_) => 0
  }

  function AnswersLeft(stage: Stage): int {
    if stage.Sending? then |stage.answers| - stage.k else 0
  }

  /** Fewer resends left, or as many and an earlier stage, or answers passed on. */
  predicate Nearer(a: Delivery, b: Delivery) {
    || a.resends > b.resends
    || (a.resends == b.resends && StagesLeft(a.stage) < StagesLeft(b.stage))
    || (a.resends == b.resends && StagesLeft(a.stage) == StagesLeft(b.stage)
      && 0 <= AnswersLeft(a.stage) < AnswersLeft(b.stage))
  }

  /** Whatever happens to a delivery brings it nearer its end: with four exchanges at most, none goes on for ever. */
  lemma EachActAdvances(s: State, d: Delivery, act: Act)
    requires Acts(s.repair.outcomes, d, act) && DeliveryOk(d)
    ensures Nearer(NextDelivery(s, d, act), d) && NextDelivery(s, d, act).resends <= MAX_RESENDS
  {
    DeliveryKeeps(s, d, act);
  }

  // ---- reconnects ----

  ghost predicate RepairOk(r: Repair) {
    && |r.outcomes| == r.epoch
    && |r.starts| == (if r.reconnecting.Some? then r.epoch + 1 else r.epoch)
    && (forall k :: 0 <= k < |r.starts| ==> r.starts[k] == k)
    && (r.reconnecting.Some? ==> r.reconnecting.value == r.epoch)
    && (r.recon.Idle? <==> r.reconnecting.None?)
    && r.lastReconnect == if r.epoch == 0 then Back else r.outcomes[r.epoch - 1]
  }

  lemma RepairKeeps(s: State, e: Event)
    requires RepairOk(s.repair) && Enabled(s, e)
    ensures RepairOk(NextRepair(s, e))
    ensures |NextRepair(s, e).starts| >= |s.repair.starts| && NextRepair(s, e).epoch >= s.repair.epoch
  {
  }

  predicate WaitOk(starts: nat, epoch: nat, d: Delivery) {
    match d.stage
    case HeadWait(attempt) => attempt < starts
    case AwaitOutcome(attempt) => attempt < starts
    case Posting(_, _, seen) => seen <= epoch
    case Reading(_, seen, _, _) => seen <= epoch
    case Failed(_, seen) => seen <= epoch
    case _ => true
  }

  ghost predicate WaitsOk(s: State) {
    forall j :: 0 <= j < |s.deliveries| ==> WaitOk(|s.repair.starts|, s.repair.epoch, s.deliveries[j])
  }

  lemma WaitKeeps(s: State, d: Delivery, act: Act, starts: nat)
    requires RepairOk(s.repair) && Acts(s.repair.outcomes, d, act) && WaitOk(|s.repair.starts|, s.repair.epoch, d)
    requires starts >= |s.repair.starts| && (act.Judge? && StartsReconnect(s, d) ==> starts > |s.repair.starts|)
    ensures WaitOk(starts, s.repair.epoch, NextDelivery(s, d, act))
  {
  }

  lemma WaitsKeep(s: State, e: Event)
    requires RepairOk(s.repair) && WaitsOk(s) && Enabled(s, e)
    ensures WaitsOk(Step(s, e))
  {
    RepairKeeps(s, e);
    match e
    case At(i, act) => WaitKeeps(s, s.deliveries[i], act, |NextRepair(s, e).starts|);
    case _ =>
  }

  /** Whoever started the reconnect in flight waits for it. */
  ghost predicate Awaited(s: State) {
    s.repair.reconnecting.Some? ==> exists j ::
      0 <= j < |s.deliveries| && s.deliveries[j].stage == AwaitOutcome(s.repair.epoch)
  }

  lemma AwaitedKeeps(s: State, e: Event)
    requires RepairOk(s.repair) && Awaited(s) && Enabled(s, e)
    ensures Awaited(Step(s, e))
  {
    var t := Step(s, e);
    RepairKeeps(s, e);
    if t.repair.reconnecting.Some? {
      if s.repair.reconnecting.Some? {
        StillAwaited(s, e);
      } else {
        assert t.deliveries[e.i].stage == AwaitOutcome(t.repair.epoch);
      }
    }
  }

  lemma StillAwaited(s: State, e: Event)
    requires RepairOk(s.repair) && Awaited(s) && Enabled(s, e) && s.repair.reconnecting.Some?
      && NextRepair(s, e).reconnecting.Some?
    ensures Awaited(Step(s, e))
  {
    var j :| 0 <= j < |s.deliveries| && s.deliveries[j].stage == AwaitOutcome(s.repair.epoch);
    assert NextRepair(s, e).epoch == s.repair.epoch;
    assert NextDeliveries(s, e)[j] == s.deliveries[j];
  }

  // ---- the handshake ----

  predicate Finished(d: Delivery, m: Message) {
    d.message == m && ((d.stage.Ended? && d.stage.answered.Some?) || (d.stage.Closed? && d.stage.answered.Some?))
  }

  /** Some delivery of `m` was answered. */
  ghost predicate WasAnswered(ds: seq<Delivery>, m: Message) {
    exists j :: 0 <= j < |ds| && Finished(ds[j], m)
  }

  ghost predicate MemoryOk(memory: Memory, ds: seq<Delivery>) {
    && (memory.initialize.Some?
      ==> memory.initialize.value.kind.Initialize? && WasAnswered(ds, memory.initialize.value))
    && (memory.initialized.Some?
      ==> memory.initialized.value.kind.Initialized? && WasAnswered(ds, memory.initialized.value))
  }

  lemma WasAnsweredStays(s: State, e: Event, m: Message)
    requires Enabled(s, e) && WasAnswered(s.deliveries, m)
    ensures WasAnswered(NextDeliveries(s, e), m)
  {
    var j :| 0 <= j < |s.deliveries| && Finished(s.deliveries[j], m);
    assert Finished(NextDeliveries(s, e)[j], m);
  }

  lemma MemoryKeeps(s: State, e: Event)
    requires MemoryOk(s.memory, s.deliveries) && Enabled(s, e)
    ensures MemoryOk(NextMemory(s, e), NextDeliveries(s, e))
  {
    if s.memory.initialize.Some? {
      WasAnsweredStays(s, e, s.memory.initialize.value);
    }
    if s.memory.initialized.Some? {
      WasAnsweredStays(s, e, s.memory.initialized.value);
    }
    if e.At? && e.act.Conclude? {
      assert Finished(NextDeliveries(s, e)[e.i], s.deliveries[e.i].message);
    }
  }

  /** The handshake as the attempt in flight read it, replayed to one vornd: nothing if no initialize was recorded; else
    * that initialize without a session, and the note recorded when it was answered, if any, with the session it opened.
    */
  predicate Replayed(replay: Replay, trail: seq<Post>, to: Upstream, session: Session) {
    match replay.read.initialize
    case None => trail == [] && session == NO_SESSION
    case Some(m) =>
      && replay.answered == Some(session)
      && trail == [Post(to, m, NO_SESSION)]
        + (if replay.read.initialized.Some? then [Post(to, replay.read.initialized.value, session)] else [])
  }

  ghost predicate TrailOk(r: Repair, replay: Replay) {
    match r.recon
    case Locating => r.trail == []
    case Opening(to) => replay.read.initialize.Some? && r.trail == [Post(to, replay.read.initialize.value, NO_SESSION)]
    case Noting(to, session) => Replayed(replay, r.trail, to, session)
    case Opened(to, session) => Replayed(replay, r.trail, to, session)
    case _ => true
  }

  lemma TrailKeeps(s: State, e: Event)
    requires TrailOk(s.repair, s.replay) && Enabled(s, e)
    ensures TrailOk(NextRepair(s, e), NextReplay(s.replay, s.memory, s.repair, NextRepair(s, e), e))
  {
  }

  /** What an attempt read is a handshake that was answered. */
  lemma ReadKeeps(s: State, e: Event)
    requires MemoryOk(s.memory, s.deliveries) && MemoryOk(s.replay.read, s.deliveries) && Enabled(s, e)
    ensures MemoryOk(ReadAfter(s.replay.read, s.memory, e), NextDeliveries(s, e))
  {
    forall m | WasAnswered(s.deliveries, m) ensures WasAnswered(NextDeliveries(s, e), m) {
      WasAnsweredStays(s, e, m);
    }
  }

  // ---- counting POSTs ----

  /** How many of the POSTs carry the message. */
  function Times(posts: seq<Post>, m: Message): nat {
    if posts == [] then 0
    else
      var n := |posts| - 1;
      if posts[n].message == m then Times(posts[..n], m) + 1 else Times(posts[..n], m)
  }

  /** How many carry a message of that kind. */
  function TimesOf(posts: seq<Post>, kind: Method): nat {
    if posts == [] then 0
    else
      var n := |posts| - 1;
      if posts[n].message.kind == kind then TimesOf(posts[..n], kind) + 1 else TimesOf(posts[..n], kind)
  }

  lemma {:induction false} TimesWithin(posts: seq<Post>, m: Message)
    ensures Times(posts, m) <= TimesOf(posts, m.kind)
  {
    if posts != [] {
      TimesWithin(posts[..|posts| - 1], m);
    }
  }

  lemma OneMore(posts: seq<Post>, p: Post, kind: Method)
    ensures TimesOf(posts + [p], kind) == TimesOf(posts, kind) + if p.message.kind == kind then 1 else 0
  {
    assert (posts + [p])[..|posts|] == posts;
  }

  predicate Handshake(m: Message) {
    m.kind.Initialize? || m.kind.Initialized?
  }

  /** Attempts post nothing but the handshake, each message of it once at most. */
  ghost predicate ReplayOk(r: Repair, replay: Replay) {
    && (forall p :: p in replay.posts ==> Handshake(p.message))
    && TimesOf(replay.posts, Initialize) + (if r.recon.Locating? then 1 else 0) <= replay.attempts
    && TimesOf(replay.posts, Initialized) + (if r.recon.Locating? || r.recon.Opening? then 1 else 0) <= replay.attempts
  }

  lemma {:induction false} NeverTimes(posts: seq<Post>, m: Message)
    requires forall p :: p in posts ==> p.message != m
    ensures Times(posts, m) == 0
  {
    if posts != [] {
      NeverTimes(posts[..|posts| - 1], m);
    }
  }

  lemma ReplayKeeps(s: State, e: Event)
    requires MemoryOk(s.memory, s.deliveries) && ReplayOk(s.repair, s.replay) && Enabled(s, e)
    ensures ReplayOk(NextRepair(s, e), NextReplay(s.replay, s.memory, s.repair, NextRepair(s, e), e))
  {
    match e
    case Fixing(Located(found)) => LocatedReplays(s, found);
    case Fixing(InitializeAnswered(id, protocol)) => AnsweredReplays(s, id, protocol);
    case _ => OthersReplayNothing(s, e);
  }

  lemma LocatedReplays(s: State, found: Option<Upstream>)
    requires MemoryOk(s.memory, s.deliveries) && ReplayOk(s.repair, s.replay) && Enabled(s, Fixing(Located(found)))
    ensures
      var e := Fixing(Located(found));
      ReplayOk(NextRepair(s, e), NextReplay(s.replay, s.memory, s.repair, NextRepair(s, e), e))
  {
    hide TimesOf, MemoryOk;
    if found.Some? && s.memory.initialize.Some? {
      var post := Post(found.value, s.memory.initialize.value, NO_SESSION);
      assert post.message.kind.Initialize? by { MemoryKinds(s); }
      PostedOne(s.replay.posts, s.repair.trail, post);
    }
  }

  lemma AnsweredReplays(s: State, id: Option<SessionId>, protocol: Option<nat>)
    requires MemoryOk(s.memory, s.deliveries) && ReplayOk(s.repair, s.replay)
    requires Enabled(s, Fixing(InitializeAnswered(id, protocol)))
    ensures
      var e := Fixing(InitializeAnswered(id, protocol));
      ReplayOk(NextRepair(s, e), NextReplay(s.replay, s.memory, s.repair, NextRepair(s, e), e))
  {
    hide TimesOf, MemoryOk;
    if s.memory.initialized.Some? {
      var post := Post(s.repair.recon.to, s.memory.initialized.value, Session(id, protocol));
      assert post.message.kind.Initialized? by { MemoryKinds(s); }
      PostedOne(s.replay.posts, s.repair.trail, post);
    }
  }

  /** Nothing else lengthens the trail. */
  lemma OthersReplayNothing(s: State, e: Event)
    requires ReplayOk(s.repair, s.replay) && Enabled(s, e)
    requires !(e.Fixing? && (e.fix.Located? || e.fix.InitializeAnswered?))
    ensures ReplayOk(NextRepair(s, e), NextReplay(s.replay, s.memory, s.repair, NextRepair(s, e), e))
  {
    hide TimesOf;
    assert |NextRepair(s, e).trail| <= |s.repair.trail|;
  }

  lemma MemoryKinds(s: State)
    requires MemoryOk(s.memory, s.deliveries)
    ensures s.memory.initialize.Some? ==> s.memory.initialize.value.kind.Initialize?
    ensures s.memory.initialized.Some? ==> s.memory.initialized.value.kind.Initialized?
  {
  }

  /** A trail longer by one is one more POST. */
  lemma PostedOne(posts: seq<Post>, trail: seq<Post>, p: Post)
    ensures
      var after := PostsAfter(posts, trail, trail + [p]);
      && after == posts + [p]
      && TimesOf(after, Initialize) == TimesOf(posts, Initialize) + (if p.message.kind.Initialize? then 1 else 0)
      && TimesOf(after, Initialized) == TimesOf(posts, Initialized) + (if p.message.kind.Initialized? then 1 else 0)
  {
    assert (trail + [p])[|trail|..] == [p];
    OneMore(posts, p, Initialize);
    OneMore(posts, p, Initialized);
  }
}
