/** Sessions, and what every run of the relay keeps (packages/mcp/src/relay.ts). */
module RelaySessions {
  import opened Wrappers
  import opened Relay
  import opened RelayRuns

  // ---- session ids ----

  /** The id was handed out in answer to an initialize: by the vornd at `to` when `strict`, else by some vornd. */
  ghost predicate Vouched(issued: set<(Upstream, SessionId)>, to: Upstream, session: Session, strict: bool) {
    session.id.Some? ==>
      if strict then (to, session.id.value) in issued else exists u :: (u, session.id.value) in issued
  }

  ghost predicate PostsVouched(issued: set<(Upstream, SessionId)>, posts: seq<Post>, strict: bool) {
    forall p :: p in posts ==> Vouched(issued, p.to, p.carried, strict)
  }

  ghost predicate LineVouched(line: Line, strict: bool) {
    && Vouched(line.issued, line.upstream, line.session, strict)
    && (line.deleted.Some? ==> Vouched(line.issued, line.deleted.value.to, line.deleted.value.carried, strict))
  }

  ghost predicate ReconVouched(issued: set<(Upstream, SessionId)>, r: Repair, strict: bool) {
    && PostsVouched(issued, r.trail, strict)
    && (r.recon.Noting? || r.recon.Opened? ==> Vouched(issued, r.recon.to, r.recon.session, strict))
  }

  ghost predicate DeliveriesVouched(issued: set<(Upstream, SessionId)>, ds: seq<Delivery>, strict: bool) {
    forall j :: 0 <= j < |ds| ==> PostsVouched(issued, ds[j].posts, strict)
  }

  /** Every session id held or sent was issued. */
  ghost predicate SessionsOk(s: State, strict: bool) {
    && LineVouched(s.line, strict)
    && ReconVouched(s.line.issued, s.repair, strict)
    && DeliveriesVouched(s.line.issued, s.deliveries, strict)
  }

  lemma IssuedGrows(s: State, e: Event)
    requires Enabled(s, e)
    ensures s.line.issued <= NextLine(s, e).issued
  {
  }

  lemma VouchedStays(
      before: set<(Upstream, SessionId)>, after: set<(Upstream, SessionId)>, to: Upstream, session: Session,
      strict: bool)
    requires before <= after && Vouched(before, to, session, strict)
    ensures Vouched(after, to, session, strict)
  {
  }

  /** An initialize is answered by a vornd the relay has meanwhile left, with an id the present one never gave out. */
  predicate Strays(s: State, e: Event)
    requires Enabled(s, e)
  {
    e.At? && e.act.BodyEnds? &&
    var d := s.deliveries[e.i];
    && e.act.body.Text? && Succeeds(d.stage.status) && d.message.kind.Initialize? && d.stage.offered.Some?
    && d.stage.to != s.line.upstream && (s.line.upstream, d.stage.offered.value) !in s.line.issued
  }

  lemma LineKeeps(s: State, e: Event, strict: bool)
    requires Enabled(s, e) && SessionsOk(s, strict) && (strict ==> !Strays(s, e))
    ensures LineVouched(NextLine(s, e), strict)
  {
    IssuedGrows(s, e);
    if s.line.deleted.Some? {
      VouchedStays(s.line.issued, NextLine(s, e).issued, s.line.deleted.value.to, s.line.deleted.value.carried, strict);
    }
  }

  lemma ReconKeeps(s: State, e: Event, strict: bool)
    requires Enabled(s, e) && SessionsOk(s, strict)
    ensures ReconVouched(NextLine(s, e).issued, NextRepair(s, e), strict)
  {
    IssuedGrows(s, e);
    forall p | p in s.repair.trail ensures Vouched(NextLine(s, e).issued, p.to, p.carried, strict) {
      VouchedStays(s.line.issued, NextLine(s, e).issued, p.to, p.carried, strict);
    }
  }

  /** A delivery posts with the session held for the vornd it posts to. */
  lemma PostsKeep(s: State, d: Delivery, act: Act, strict: bool)
    requires Acts(s.repair.outcomes, d, act) && LineVouched(s.line, strict)
      && PostsVouched(s.line.issued, d.posts, strict)
    ensures PostsVouched(s.line.issued, NextDelivery(s, d, act).posts, strict)
  {
  }

  lemma DeliveriesKeepVouched(s: State, e: Event, strict: bool)
    requires Enabled(s, e) && SessionsOk(s, strict)
    ensures DeliveriesVouched(NextLine(s, e).issued, NextDeliveries(s, e), strict)
  {
    IssuedGrows(s, e);
    var ds := NextDeliveries(s, e);
    if e.At? {
      PostsKeep(s, s.deliveries[e.i], e.act, strict);
    }
    forall j | 0 <= j < |ds| ensures PostsVouched(NextLine(s, e).issued, ds[j].posts, strict) {
      assert PostsVouched(s.line.issued, ds[j].posts, strict);
      forall p | p in ds[j].posts ensures Vouched(NextLine(s, e).issued, p.to, p.carried, strict) {
        VouchedStays(s.line.issued, NextLine(s, e).issued, p.to, p.carried, strict);
      }
    }
  }

  lemma SessionsKeep(s: State, e: Event, strict: bool)
    requires Enabled(s, e) && SessionsOk(s, strict) && (strict ==> !Strays(s, e))
    ensures SessionsOk(Step(s, e), strict)
  {
    LineKeeps(s, e, strict);
    ReconKeeps(s, e, strict);
    DeliveriesKeepVouched(s, e, strict);
  }

  // ---- the MCP lifecycle ----

  /** vornd may yet be asked on account of this delivery, or has not answered it. */
  predicate Open(d: Delivery) {
    || d.stage.HeadWait? || d.stage.Posting? || d.stage.Reading?
    || d.stage.Failed? || d.stage.AwaitOutcome? || d.stage.Resolved?
  }

  /** The agent sends nothing beside an initialize that is not answered yet. */
  ghost predicate InOrder(s: State, e: Event) {
    e.Arrive? ==>
      forall j :: 0 <= j < |s.deliveries| && Open(s.deliveries[j]) ==>
        !s.deliveries[j].message.kind.Initialize? && !e.message.kind.Initialize?
  }

  ghost predicate Alone(ds: seq<Delivery>) {
    forall i, j ::
      0 <= i < |ds| && 0 <= j < |ds| && i != j && ds[i].message.kind.Initialize? && Open(ds[i]) ==> !Open(ds[j])
  }

  /** An initialize in flight is with the vornd the relay holds. */
  ghost predicate Here(upstream: Upstream, ds: seq<Delivery>) {
    forall i :: 0 <= i < |ds| && ds[i].message.kind.Initialize? && (ds[i].stage.Posting? || ds[i].stage.Reading?) ==>
      ds[i].stage.to == upstream
  }

  lemma StaysShut(s: State, d: Delivery, act: Act)
    requires Acts(s.repair.outcomes, d, act)
    ensures NextDelivery(s, d, act).message == d.message
    ensures Open(NextDelivery(s, d, act)) ==> Open(d)
  {
  }

  lemma AloneKeeps(s: State, e: Event)
    requires Enabled(s, e) && InOrder(s, e) && Alone(s.deliveries)
    ensures Alone(NextDeliveries(s, e))
  {
    if e.At? {
      StaysShut(s, s.deliveries[e.i], e.act);
    } else if e.Arrive? {
      assert Arrived(s, e.message).message == e.message;
    }
  }

  lemma MovesHere(s: State, d: Delivery, act: Act)
    requires Acts(s.repair.outcomes, d, act) && (d.stage.Posting? || d.stage.Reading? ==> d.stage.to == s.line.upstream)
    ensures var n := NextDelivery(s, d, act); n.stage.Posting? || n.stage.Reading? ==> n.stage.to == s.line.upstream
  {
  }

  /** While an initialize is in flight nothing is installed: whoever waits for the reconnect would be open beside it. */
  lemma NothingInstalls(s: State, i: nat)
    requires RepairOk(s.repair) && Awaited(s) && Alone(s.deliveries) && s.repair.recon.Opened?
    requires i < |s.deliveries| && s.deliveries[i].message.kind.Initialize?
    ensures !s.deliveries[i].stage.Posting? && !s.deliveries[i].stage.Reading?
  {
    var j :| 0 <= j < |s.deliveries| && s.deliveries[j].stage == AwaitOutcome(s.repair.epoch);
    assert Open(s.deliveries[j]);
  }

  lemma HereKeeps(s: State, e: Event)
    requires Enabled(s, e) && RepairOk(s.repair) && Awaited(s) && Alone(s.deliveries)
      && Here(s.line.upstream, s.deliveries)
    ensures Here(NextLine(s, e).upstream, NextDeliveries(s, e))
  {
    if e == Fixing(Install) {
      forall i | 0 <= i < |s.deliveries| && s.deliveries[i].message.kind.Initialize?
        ensures !s.deliveries[i].stage.Posting? && !s.deliveries[i].stage.Reading?
      {
        NothingInstalls(s, i);
      }
    } else {
      assert NextLine(s, e).upstream == s.line.upstream;
      if e.At? {
        StaysShut(s, s.deliveries[e.i], e.act);
        if s.deliveries[e.i].message.kind.Initialize? {
          MovesHere(s, s.deliveries[e.i], e.act);
        }
      }
    }
  }

  // ---- every run ----

  ghost predicate Inv(s: State) {
    && DeliveriesOk(s.deliveries) && RepairOk(s.repair) && WaitsOk(s) && Awaited(s)
    && MemoryOk(s.memory, s.deliveries) && MemoryOk(s.replay.read, s.deliveries)
    && TrailOk(s.repair, s.replay) && ReplayOk(s.repair, s.replay) && SessionsOk(s, false)
  }

  lemma InvKeeps(s: State, e: Event)
    requires Inv(s) && Enabled(s, e)
    ensures Inv(Step(s, e))
  {
    DeliveriesKeep(s, e);
    RepairKeeps(s, e);
    WaitsKeep(s, e);
    AwaitedKeeps(s, e);
    MemoryKeeps(s, e);
    ReadKeeps(s, e);
    TrailKeeps(s, e);
    ReplayKeeps(s, e);
    SessionsKeep(s, e, false);
  }

  lemma {:induction false} InvAlways(s: State, run: seq<Event>)
    requires Inv(s) && Legal(s, run)
    ensures Inv(Play(s, run))
    decreases |run|
  {
    if run != [] {
      InvKeeps(s, run[0]);
      InvAlways(Step(s, run[0]), run[1..]);
    }
  }

  lemma StartsWell(first: Upstream)
    ensures Inv(Start(first)) && Ordered(Start(first))
  {
  }

  /** A run in which the agent keeps to the lifecycle. */
  ghost predicate Orderly(s: State, run: seq<Event>)
    decreases |run|
  {
    run == [] || (Enabled(s, run[0]) && InOrder(s, run[0]) && Orderly(Step(s, run[0]), run[1..]))
  }

  ghost predicate Ordered(s: State) {
    Alone(s.deliveries) && Here(s.line.upstream, s.deliveries) && SessionsOk(s, true)
  }

  lemma OrderKeeps(s: State, e: Event)
    requires Inv(s) && Ordered(s) && Enabled(s, e) && InOrder(s, e)
    ensures Ordered(Step(s, e))
  {
    AloneKeeps(s, e);
    HereKeeps(s, e);
    SessionsKeep(s, e, true);
  }

  lemma {:induction false} OrderAlways(s: State, run: seq<Event>)
    requires Inv(s) && Ordered(s) && Orderly(s, run)
    ensures Legal(s, run) && Ordered(Play(s, run))
    decreases |run|
  {
    if run != [] {
      InvKeeps(s, run[0]);
      OrderKeeps(s, run[0]);
      OrderAlways(Step(s, run[0]), run[1..]);
    }
  }

  // ---- the promises ----

  /** A message is posted four times at most, and once more by each attempt to reconnect if it is part of the handshake;
    * a `tools/call` is taken once at most, whatever breaks and when.
    */
  lemma TakenOnceAtMost(first: Upstream, run: seq<Event>, i: nat)
    requires Legal(Start(first), run) && i < |Play(Start(first), run).deliveries|
    ensures var s := Play(Start(first), run); var d := s.deliveries[i];
      && |d.posts| <= MAX_RESENDS + 1 && (forall p :: p in d.posts ==> p.message == d.message)
      && Times(s.replay.posts, d.message) <= (if Handshake(d.message) then s.replay.attempts else 0)
      && (d.message.kind.ToolsCall? ==> d.taken <= 1)
  {
    StartsWell(first);
    InvAlways(Start(first), run);
    var s := Play(Start(first), run);
    assert DeliveryOk(s.deliveries[i]);
    TimesWithin(s.replay.posts, s.deliveries[i].message);
    if !Handshake(s.deliveries[i].message) {
      NeverTimes(s.replay.posts, s.deliveries[i].message);
    }
  }

  /** The agent hears answers of one exchange, all of them once the delivery is over, or one error with the request's
    * id; never both, and no error for what is no request.
    */
  lemma HeardOneWay(first: Upstream, run: seq<Event>, i: nat)
    requires Legal(Start(first), run) && i < |Play(Start(first), run).deliveries|
    ensures var d := Play(Start(first), run).deliveries[i];
      && (forall w :: w in d.said && w.Unanswered? ==> d.said == [w] && d.stage == Closed(None) && IsRequest(d.message))
      && (forall w :: w in d.said && w.Answered? ==> w.exchange == |d.posts|)
      && (d.stage.Closed? && d.stage.answered.Some?
        ==> d.said == Told(|d.posts|, d.stage.answered.value, |d.stage.answered.value|))
      && (d.stage == Closed(None) && IsRequest(d.message) ==> d.said == [Unanswered(d.message.id.value)])
  {
    StartsWell(first);
    InvAlways(Start(first), run);
    assert DeliveryOk(Play(Start(first), run).deliveries[i]);
  }

  /** No delivery is ever stuck: something can happen to it, or to the reconnect it waits for. */
  lemma NothingIsStuck(first: Upstream, run: seq<Event>, i: nat)
    requires Legal(Start(first), run) && i < |Play(Start(first), run).deliveries|
    ensures var s := Play(Start(first), run); var d := s.deliveries[i];
      || d.stage.Closed?
      || (exists act :: Acts(s.repair.outcomes, d, act))
      || (s.repair.reconnecting.Some? && exists fix :: Fixes(s.repair.recon, fix))
  {
    StartsWell(first);
    InvAlways(Start(first), run);
    var s := Play(Start(first), run);
    var d := s.deliveries[i];
    assert WaitOk(|s.repair.starts|, s.repair.epoch, d) && DeliveryOk(d);
    if CanWake(s.repair.outcomes, d) {
      assert Acts(s.repair.outcomes, d, Wake);
    } else if d.stage.HeadWait? || d.stage.AwaitOutcome? {
      CanFix(s.repair);
    } else if !d.stage.Closed? {
      CanAct(s.repair.outcomes, d);
    }
  }

  lemma CanAct(outcomes: seq<Outcome>, d: Delivery)
    requires SaidOk(d) && !d.stage.HeadWait? && !d.stage.AwaitOutcome? && !d.stage.Closed?
    ensures exists act :: Acts(outcomes, d, act)
  {
    var act := match d.stage
      case Posting(_, _, _) => Replied(Lost, false)
      case Reading(_, _, _, _) => BodyEnds(BrokenOff)
      case Sending(_, _) => Sent
      case Returned(_) => Conclude
      case Failed(_, _) => Judge
      case Ended(_) => Report
      case _ => Wake;
    assert Acts(outcomes, d, act);
  }

  lemma CanFix(r: Repair)
    requires !r.recon.Idle?
    ensures exists fix :: Fixes(r.recon, fix)
  {
    var fix := match r.recon
      case Locating => Located(None)
      case Opening(_) => InitializeFails
      case Noting(_, _) => NoteAnswered(false)
      case Opened(_, _) => Install
      case Thrown => Catch(true)
      case Sleeping => SleepEnds
      case _ => Settle;
    assert Fixes(r.recon, fix);
  }

  /** Reconnects are started one per epoch, the one in flight in the present epoch, and each is waited for. */
  lemma OneReconnectPerEpoch(first: Upstream, run: seq<Event>)
    requires Legal(Start(first), run)
    ensures var r := Play(Start(first), run).repair;
      && |r.starts| == r.epoch + (if r.reconnecting.Some? then 1 else 0)
      && forall k :: 0 <= k < |r.starts| ==> r.starts[k] == k
    ensures Awaited(Play(Start(first), run))
  {
    StartsWell(first);
    InvAlways(Start(first), run);
  }

  /** The body of an initialize of the agent's own. */
  predicate Opens(s: State, e: Event)
    requires Enabled(s, e)
  {
    e.At? && e.act.BodyEnds? && s.deliveries[e.i].message.kind.Initialize?
  }

  /** Where vornd is and the session there change only when a reconnect installs both, having replayed to that vornd the
    * handshake as it read it, or when an initialize of the agent's own opens a session, which leaves vornd where it is.
    */
  lemma InstalledTogether(first: Upstream, run: seq<Event>, e: Event)
    requires Legal(Start(first), run) && Enabled(Play(Start(first), run), e)
    ensures var s := Play(Start(first), run); var t := Step(s, e);
      || (t.line.upstream == s.line.upstream && t.line.session.id == s.line.session.id)
      || (t.line.upstream == s.line.upstream && Opens(s, e))
      || (e == Fixing(Install) && t.line.upstream == s.repair.recon.to && t.line.session == s.repair.recon.session)
    ensures var s := Play(Start(first), run);
      e == Fixing(Install) ==>
        && Replayed(s.replay, s.repair.trail, Step(s, e).line.upstream, Step(s, e).line.session)
        && MemoryOk(s.replay.read, s.deliveries)
  {
    StartsWell(first);
    InvAlways(Start(first), run);
    LineMoves(Play(Start(first), run), e);
  }

  lemma LineMoves(s: State, e: Event)
    requires Enabled(s, e) && TrailOk(s.repair, s.replay)
    ensures var line := NextLine(s, e);
      || (line.upstream == s.line.upstream && (line.session.id == s.line.session.id || Opens(s, e)))
      || (e == Fixing(Install) && line.upstream == s.repair.recon.to && line.session == s.repair.recon.session)
    ensures e == Fixing(Install) ==> Replayed(s.replay, s.repair.trail, NextLine(s, e).upstream, NextLine(s, e).session)
  {
  }

  /** Every session id held or sent was handed out by some vornd in answer to an initialize. */
  lemma IdsAreIssued(first: Upstream, run: seq<Event>)
    requires Legal(Start(first), run)
    ensures SessionsOk(Play(Start(first), run), false)
  {
    StartsWell(first);
    InvAlways(Start(first), run);
  }

  /** If the agent keeps to the lifecycle, by the very vornd they are sent to. */
  lemma IdsGoHome(first: Upstream, run: seq<Event>)
    requires Orderly(Start(first), run)
    ensures Legal(Start(first), run) && SessionsOk(Play(Start(first), run), true)
  {
    StartsWell(first);
    OrderAlways(Start(first), run);
  }

  /** A step parts session and vornd exactly when it lets an initialize stray. */
  lemma PartsIffStrays(s: State, e: Event)
    requires Enabled(s, e) && SessionsOk(s, true)
    ensures Vouched(NextLine(s, e).issued, NextLine(s, e).upstream, NextLine(s, e).session, true) <==> !Strays(s, e)
  {
    if !Strays(s, e) {
      LineKeeps(s, e, true);
    }
  }

  /** The relay talks to `now` with a session only `first` ever gave out. */
  ghost predicate Strayed(first: Upstream, now: Upstream, id: SessionId, run: seq<Event>) {
    Legal(Start(first), run) &&
    var line := Play(Start(first), run).line;
    line.upstream == now && line.session.id == Some(id) && line.issued == {(first, id)}
  }

  /** An initialize is answered by `first`, its body still to come; a message sent before it was not answered. */
  function HalfOpen(first: Upstream, id: SessionId, stage: Stage, at: Upstream, repair: Repair, attempts: nat): State {
    var ping, init := Message(OtherMethod, None), Message(Initialize, Some(1));
    State(Line(at, NO_SESSION, false, false, {}, None), Memory(None, None), repair,
      Replay(Memory(None, None), None, attempts, []), [
      Delivery(ping, stage, 0, [Post(first, ping, NO_SESSION)], 0, []),
      Delivery(init, Reading(first, 0, 200, Some(id)), 0, [Post(first, init, NO_SESSION)], 0, [])])
  }

  function BothSent(first: Upstream, id: SessionId): State {
    HalfOpen(first, id, Posting(first, NO_SESSION, 0), first, Repair(0, Back, None, Idle, [], [], []), 0)
  }

  function NowFound(first: Upstream, now: Upstream, id: SessionId): State {
    HalfOpen(first, id, AwaitOutcome(0), first, Repair(0, Back, Some(0), Opened(now, NO_SESSION), [], [0], []), 1)
  }

  lemma StrayBegins(first: Upstream, id: SessionId) returns (run: seq<Event>)
    ensures Legal(Start(first), run) && Play(Start(first), run) == BothSent(first, id)
  {
    var a, b := Message(OtherMethod, None), Message(Initialize, Some(1));
    run := [Arrive(a), Arrive(b), At(1, Replied(Head(200, Some(id)), false))];
    var posting := Posting(first, NO_SESSION, 0);
    assert forall p: Post :: [] + [p] == [p];
    var s1 := Step(Start(first), run[0]);
    assert s1.deliveries == [Delivery(a, posting, 0, [Post(first, a, NO_SESSION)], 0, [])];
    var s2 := Step(s1, run[1]);
    assert s2.deliveries == s1.deliveries + [Delivery(b, posting, 0, [Post(first, b, NO_SESSION)], 0, [])];
    PlayThree(Start(first), run);
    assert Step(s2, run[2]).deliveries == BothSent(first, id).deliveries;
  }

  /** The other message finds `first` gone, and the reconnect it starts finds `now`. */
  lemma StrayMoves(first: Upstream, now: Upstream, id: SessionId) returns (run: seq<Event>)
    ensures Legal(BothSent(first, id), run) && Play(BothSent(first, id), run) == NowFound(first, now, id)
  {
    var s := BothSent(first, id);
    run := [At(0, Replied(NotConnected, false)), At(0, Judge), Fixing(Located(Some(now)))];
    var s1 := Step(s, run[0]);
    assert s1 == HalfOpen(first, id, Failed(Unsent, 0), first, s.repair, 0);
    var s2 := Step(s1, run[1]);
    assert s2 == HalfOpen(first, id, AwaitOutcome(0), first, Repair(0, Back, Some(0), Locating, [], [0], []), 1);
    PlayThree(s, run);
  }

  /** The relay moves to `now`, and then the initialize's body arrives. */
  lemma StrayEnds(first: Upstream, now: Upstream, id: SessionId) returns (run: seq<Event>)
    ensures Legal(NowFound(first, now, id), run)
    ensures Play(NowFound(first, now, id), run).line
      == Line(now, Session(Some(id), None), true, false, {(first, id)}, None)
  {
    var s := NowFound(first, now, id);
    var s1 := Step(s, Fixing(Install));
    assert s1 == HalfOpen(first, id, AwaitOutcome(0), now, s.repair.(recon := Installed), 1);
    var last := At(1, BodyEnds(Text(Some([]))));
    PlayOne(s, Fixing(Install));
    PlayOne(s1, last);
    PlayJoin(s, [Fixing(Install)], [last]);
    run := [Fixing(Install)] + [last];
  }

  /** The lifecycle is needed: an agent that sends an initialize beside another message can end up with one vornd's
    * session and the other vornd's address.
    */
  lemma AnInitializeCanStray(first: Upstream, now: Upstream, id: SessionId)
    ensures exists run :: Strayed(first, now, id, run)
  {
    var a := StrayBegins(first, id);
    var b := StrayMoves(first, now, id);
    var c := StrayEnds(first, now, id);
    PlayJoin(Start(first), a, b);
    PlayJoin(Start(first), a + b, c);
    assert Strayed(first, now, id, a + b + c);
  }

  lemma PlayOne(s: State, e: Event)
    requires Enabled(s, e)
    ensures Legal(s, [e]) && Play(s, [e]) == Step(s, e)
  {
    assert [e][1..] == [];
  }

  lemma PlayThree(s: State, es: seq<Event>)
    requires |es| == 3 && Enabled(s, es[0]) && Enabled(Step(s, es[0]), es[1])
      && Enabled(Step(Step(s, es[0]), es[1]), es[2])
    ensures Legal(s, es) && Play(s, es) == Step(Step(Step(s, es[0]), es[1]), es[2])
  {
    PlayOne(Step(Step(s, es[0]), es[1]), es[2]);
    assert es[1..][1..] == [es[2]];
  }

  lemma {:induction false} PlayJoin(s: State, a: seq<Event>, b: seq<Event>)
    requires Legal(s, a) && Legal(Play(s, a), b)
    ensures Legal(s, a + b) && Play(s, a + b) == Play(Play(s, a), b)
    decreases |a|
  {
    hide Step, Enabled;
    if a == [] {
      assert a + b == b;
    } else {
      PlayJoin(Step(s, a[0]), a[1..], b);
      assert (a + b)[1..] == a[1..] + b;
    }
  }
}
