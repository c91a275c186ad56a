/** The variables of `relay`'s closure and the pieces of its functions that run between awaits, in the form the source
  * gives them (packages/mcp/src/relay.ts). Each piece is one step of the state machine.
  */
module RelayClosure {
  import opened Wrappers
  import opened Relay
  import opened RelayRuns

  lemma JudgeStep(s: State, i: nat)
    requires Enabled(s, At(i, Judge)) && RepairOk(s.repair)
    ensures Step(s, At(i, Judge)) ==
      if StartsReconnect(s, s.deliveries[i]) then
        s.(deliveries := s.deliveries[i := AfterJudge(s, s.deliveries[i])],
           repair := s.repair.(reconnecting := Some(s.repair.epoch), starts := s.repair.starts + [s.repair.epoch],
                               recon := Locating, trail := []),
           replay := s.replay.(attempts := s.replay.attempts + 1))
      else s.(deliveries := s.deliveries[i := AfterJudge(s, s.deliveries[i])])
  {
  }

  lemma BodyStep(s: State, i: nat, body: Body)
    requires Enabled(s, At(i, BodyEnds(body)))
    ensures i < |s.deliveries| && s.deliveries[i].stage.Reading?
    ensures Step(s, At(i, BodyEnds(body))) ==
      s.(line := LineAfterBody(s.line, s.deliveries[i], body),
         deliveries := s.deliveries[i := AfterBody(s.deliveries[i], body)])
  {
  }

  lemma ReplayedStep(s: State, id: Option<SessionId>, protocol: Option<nat>)
    requires Enabled(s, Fixing(InitializeAnswered(id, protocol)))
    ensures
      var found, agreed := s.repair.recon.to, Session(id, protocol);
      var line := s.line.(issued := Issue(s.line.issued, found, id));
      var replay := s.replay.(read := Memory(s.replay.read.initialize, s.memory.initialized), answered := Some(agreed));
      Step(s, Fixing(InitializeAnswered(id, protocol))) ==
      if s.memory.initialized.None? then
        s.(line := line, repair := s.repair.(recon := Opened(found, agreed)), replay := replay)
      else
        var p := Post(found, s.memory.initialized.value, agreed);
        s.(line := line, repair := s.repair.(recon := Noting(found, agreed), trail := s.repair.trail + [p]),
           replay := replay.(posts := replay.posts + [p]))
  {
    if s.memory.initialized.Some? {
      var p := Post(s.repair.recon.to, s.memory.initialized.value, Session(id, protocol));
      assert (s.repair.trail + [p])[|s.repair.trail|..] == [p];
    }
  }

  class Closure {
    var upstream: Upstream
    var session: Session
    var initialize: Option<Message>
    var initialized: Option<Message>
    var reached: bool
    var epoch: nat
    var lastReconnect: Outcome
    var reconnecting: Option<nat>
    var closing: bool
    var deliveries: seq<Delivery>
    var recon: Recon

    /** What was posted, started and issued so far. */
    ghost var trail: seq<Post>
    ghost var starts: seq<nat>
    var outcomes: seq<Outcome>
    ghost var issued: set<(Upstream, SessionId)>
    ghost var replay: Replay
    var deleted: Option<Post>

    ghost function Now(): State
      reads this
    {
      State(Line(upstream, session, reached, closing, issued, deleted), Memory(initialize, initialized),
            Repair(epoch, lastReconnect, reconnecting, recon, trail, starts, outcomes), replay, deliveries)
    }

    /** Reconnects are numbered by the epoch they start in, and one is in flight exactly while one is awaited. */
    ghost predicate Valid()
      reads this
    {
      RepairOk(Now().repair)
    }

    constructor (first: Upstream)
      ensures Now() == Start(first)
    {
      upstream, session, reached, closing, issued, deleted := first, NO_SESSION, false, false, {}, None;
      initialize, initialized := None, None;
      epoch, lastReconnect, reconnecting, recon, trail, starts, outcomes := 0, Back, None, Idle, [], [], [];
      replay := Replay(Memory(None, None), None, 0, []);
      deliveries := [];
    }

    /** One POST goes out with what the relay holds. */
    method SendPost(d: Delivery) returns (next: Delivery)
      ensures next == Posted(Now(), d)
    {
      var opening := d.message.kind.Initialize?;
      var sent := if opening then NO_SESSION else session;
      next := d.(stage := Posting(upstream, sent, epoch), posts := d.posts + [Relay.Post(upstream, d.message, sent)]);
    }

    /** The loop's head. */
    method LoopHead(d: Delivery) returns (next: Delivery)
      ensures next == Enter(Now(), d)
    {
      if reconnecting.Some? {
        next := d.(stage := HeadWait(reconnecting.value));
      } else {
        next := SendPost(d);
      }
    }

    method OnMessage(message: Message)
      modifies this
      ensures Now() == Step(old(Now()), Arrive(message))
    {
      var d := LoopHead(Delivery(message, Resolved(Back), 0, [], 0, []));
      deliveries := deliveries + [d];
    }

    /** An awaited reconnect is over: the exchange is made, or made again, or given up. */
    method Resume(i: nat)
      requires Enabled(Now(), At(i, Wake))
      modifies this
      ensures Now() == Step(old(Now()), At(i, Wake))
    {
      var d := deliveries[i];
      var next := d;
      if d.stage.HeadWait? {
        next := SendPost(d);
      } else {
        var gaveUp := if d.stage.AwaitOutcome? then outcomes[d.stage.attempt] else d.stage.outcome;
        if gaveUp.GaveUp? {
          next := d.(stage := Ended(None));
        } else {
          next := LoopHead(d.(resends := d.resends + 1));
        }
      }
      deliveries := deliveries[i := next];
    }

    /** The status line arrives, or the POST fails. */
    method OnReply(i: nat, reply: Reply, taken: bool)
      requires Enabled(Now(), At(i, Replied(reply, taken)))
      modifies this
      ensures Now() == Step(old(Now()), At(i, Replied(reply, taken)))
    {
      var d := deliveries[i];
      if taken {
        d := d.(taken := d.taken + 1);
      }
      var to, sent, seen := d.stage.to, d.stage.carried, d.stage.seen;
      var stage: Stage;
      if reply.NotConnected? {
        stage := Failed(Unsent, seen);
      } else if reply.Lost? {
        stage := Failed(Broken, seen);
      } else if reply.status == 404 && sent.id.Some? {
        stage := Failed(Unsent, seen);
      } else if reply.status == 503 || (reached && (reply.status == 404 || reply.status == 401)) {
        stage := Failed(Unsent, seen);
      } else {
        stage := Reading(to, seen, reply.status, reply.session);
      }
      deliveries := deliveries[i := d.(stage := stage)];
    }

    /** The next answer notes the protocol, if it answers an initialize, and goes to the agent. */
    method PassOn(i: nat, answers: seq<Answer>, k: nat)
      requires i < |deliveries| && k <= |answers|
      modifies this
      ensures Now() == old(Now()).(
        line := Noted(old(Now()).line, old(deliveries)[i].message, answers, k),
        deliveries := old(deliveries)[i := Passed(old(deliveries)[i], answers, k)])
    {
      var d := deliveries[i];
      if k == |answers| {
        deliveries := deliveries[i := d.(stage := Returned(answers))];
        return;
      }
      if d.message.kind.Initialize? && answers[k].version.Some? {
        session := Session(session.id, answers[k].version);
      }
      var said := d.said + [Answered(|d.posts|, answers[k])];
      deliveries := deliveries[i := d.(stage := Sending(answers, k + 1), said := said)];
    }

    /** The body arrives: from here on vornd was reached, and an initialize has opened its session. */
    method OnBody(i: nat, body: Body)
      requires Enabled(Now(), At(i, BodyEnds(body)))
      modifies this
      ensures Now() == Step(old(Now()), At(i, BodyEnds(body)))
    {
      BodyStep(Now(), i, body);
      hide Step, NextRepair, NextReplay, NextLine, NextMemory, NextDeliveries, Enabled;
      var d := deliveries[i];
      var to, seen, offered := d.stage.to, d.stage.seen, d.stage.offered;
      if body.BrokenOff? {
        deliveries := deliveries[i := d.(stage := Failed(Broken, seen))];
        return;
      }
      if !Succeeds(d.stage.status) {
        deliveries := deliveries[i := d.(stage := Failed(Final, seen))];
        return;
      }
      reached := true;
      if d.message.kind.Initialize? {
        session := Session(offered, None);
        issued := Issue(issued, to, offered);
      }
      if body.answers.None? {
        deliveries := deliveries[i := d.(stage := Failed(Final, seen))];
        return;
      }
      PassOn(i, body.answers.value, 0);
    }

    method OnSent(i: nat)
      requires Enabled(Now(), At(i, Sent))
      modifies this
      ensures Now() == Step(old(Now()), At(i, Sent))
    {
      PassOn(i, deliveries[i].stage.answers, deliveries[i].stage.k);
    }

    /** A message that was answered is recorded if it is part of the handshake. */
    method OnSuccess(i: nat)
      requires Enabled(Now(), At(i, Conclude))
      modifies this
      ensures Now() == Step(old(Now()), At(i, Conclude))
    {
      var d := deliveries[i];
      if d.message.kind.Initialize? {
        initialize := Some(d.message);
      } else if d.message.kind.Initialized? {
        initialized := Some(d.message);
      }
      deliveries := deliveries[i := d.(stage := Ended(Some(d.stage.answers)))];
    }

    /** `reconnect`: the outcome already known, the reconnect in flight, or a new one. */
    method Reconnect(seen: nat) returns (stage: Stage)
      requires Valid()
      modifies this`reconnecting, this`starts, this`recon, this`trail, this`replay
      ensures stage == if seen != epoch then Resolved(lastReconnect) else AwaitOutcome(epoch)
      ensures reconnecting == if seen == epoch && old(reconnecting).None? then Some(epoch) else old(reconnecting)
      ensures if seen == epoch && old(reconnecting).None? then
          && starts == old(starts) + [epoch] && recon == Locating && trail == []
          && replay == old(replay).(attempts := old(replay).attempts + 1)
        else starts == old(starts) && recon == old(recon) && trail == old(trail) && replay == old(replay)
    {
      if seen != epoch {
        return Resolved(lastReconnect);
      }
      if reconnecting.None? {
        reconnecting := Some(epoch);
        starts := starts + [epoch];
        recon := Locating;
        trail := [];
        replay := replay.(attempts := replay.attempts + 1);
      }
      stage := AwaitOutcome(reconnecting.value);
    }

    /** A failure ends the delivery or brings on a reconnect. */
    method OnFailure(i: nat)
      requires Valid() && Enabled(Now(), At(i, Judge))
      modifies this
      ensures Now() == Step(old(Now()), At(i, Judge))
    {
      JudgeStep(Now(), i);
      hide Step, NextRepair, NextReplay, NextLine, NextMemory, NextDeliveries, Enabled, Issue;
      var d := deliveries[i];
      var failure := d.stage.failure;
      var stage := Ended(None);
      if !failure.Final? && !(failure.Broken? && d.message.kind.ToolsCall?) && !closing && d.resends != MAX_RESENDS {
        stage := Reconnect(d.stage.seen);
      }
      deliveries := deliveries[i := d.(stage := stage)];
    }

    /** A request that failed is answered with an error. */
    method OnEnd(i: nat)
      requires Enabled(Now(), At(i, Report))
      modifies this
      ensures Now() == Step(old(Now()), At(i, Report))
    {
      var d := deliveries[i];
      var said := d.said;
      if d.stage.answered.None? && IsRequest(d.message) {
        said := said + [Unanswered(d.message.id.value)];
      }
      deliveries := deliveries[i := d.(stage := Closed(d.stage.answered), said := said)];
    }

    // ---- the reconnect in flight ----

    method OnLocated(found: Option<Upstream>)
      requires Enabled(Now(), Fixing(Located(found)))
      modifies this
      ensures Now() == Step(old(Now()), Fixing(Located(found)))
    {
      replay := replay.(read := Memory(initialize, None), answered := None);
      if found.None? {
        recon := Thrown;
      } else if initialize.None? {
        recon := Opened(found.value, NO_SESSION);
      } else {
        ghost var p := Relay.Post(found.value, initialize.value, NO_SESSION);
        assert (trail + [p])[|trail|..] == [p];
        trail := trail + [p];
        replay := replay.(posts := replay.posts + [p]);
        recon := Opening(found.value);
      }
    }

    method OnReplayed(id: Option<SessionId>, protocol: Option<nat>)
      requires Enabled(Now(), Fixing(InitializeAnswered(id, protocol)))
      modifies this
      ensures Now() == Step(old(Now()), Fixing(InitializeAnswered(id, protocol)))
    {
      ReplayedStep(Now(), id, protocol);
      hide Step, NextRepair, NextReplay, NextLine, NextMemory, NextDeliveries, Enabled, Issue;
      var found, agreed := recon.to, Session(id, protocol);
      issued := Issue(issued, found, id);
      replay := replay.(read := Memory(replay.read.initialize, initialized), answered := Some(agreed));
      if initialized.None? {
        recon := Opened(found, agreed);
      } else {
        ghost var p := Relay.Post(found, initialized.value, agreed);
        trail := trail + [p];
        replay := replay.(posts := replay.posts + [p]);
        recon := Noting(found, agreed);
      }
    }

    method OnNoted(ok: bool)
      requires Enabled(Now(), Fixing(NoteAnswered(ok)))
      modifies this
      ensures Now() == Step(old(Now()), Fixing(NoteAnswered(ok)))
    {
      recon := if ok then Opened(recon.to, recon.session) else Thrown;
    }

    method OnRefused()
      requires Enabled(Now(), Fixing(InitializeFails))
      modifies this
      ensures Now() == Step(old(Now()), Fixing(InitializeFails))
    {
      recon := Thrown;
    }

    method OnOpened()
      requires Enabled(Now(), Fixing(Install))
      modifies this
      ensures Now() == Step(old(Now()), Fixing(Install))
    {
      upstream := recon.to;
      session := recon.session;
      recon := Installed;
    }

    method OnSettled()
      requires Enabled(Now(), Fixing(Settle))
      modifies this
      ensures Now() == Step(old(Now()), Fixing(Settle))
    {
      var outcome := if recon.Installed? then Back else GaveUp;
      epoch := epoch + 1;
      lastReconnect := outcome;
      reconnecting := None;
      recon := Idle;
      outcomes := outcomes + [outcome];
    }

    method OnThrown(expired: bool)
      requires Enabled(Now(), Fixing(Catch(expired)))
      modifies this
      ensures Now() == Step(old(Now()), Fixing(Catch(expired)))
    {
      recon := if expired || closing then GivenUp else Sleeping;
    }

    method OnSlept()
      requires Enabled(Now(), Fixing(SleepEnds))
      modifies this
      ensures Now() == Step(old(Now()), Fixing(SleepEnds))
    {
      recon := Locating;
      trail := [];
      replay := replay.(attempts := replay.attempts + 1);
    }

    // ---- closing ----

    method OnClose()
      requires !closing
      modifies this
      ensures Now() == Step(old(Now()), CloseLocal)
    {
      closing := true;
    }

    method EndTheSession()
      requires Enabled(Now(), EndSession)
      modifies this
      ensures Now() == Step(old(Now()), EndSession)
    {
      deleted := Some(Relay.Post(upstream, Message(NoMethod, None), session));
    }

    // ---- runs ----

    /** One event, handled by the piece of code it sets off. */
    method Take(e: Event)
      requires Valid() && Enabled(Now(), e)
      modifies this
      ensures Now() == Step(old(Now()), e) && Valid()
    {
      RepairKeeps(Now(), e);
      match e
      case Arrive(message) => OnMessage(message);
      case At(i, act) => TakeAct(i, act);
      case Fixing(fix) => TakeFix(fix);
      case CloseLocal => OnClose();
      case EndSession => EndTheSession();
    }

    method TakeAct(i: nat, act: Act)
      requires Valid() && Enabled(Now(), At(i, act))
      modifies this
      ensures Now() == Step(old(Now()), At(i, act))
    {
      match act
      case Wake => Resume(i);
      case Replied(reply, taken) => OnReply(i, reply, taken);
      case BodyEnds(body) => OnBody(i, body);
      case Sent => OnSent(i);
      case Conclude => OnSuccess(i);
      case Judge => OnFailure(i);
      case Report => OnEnd(i);
    }

    method TakeFix(fix: Fix)
      requires Enabled(Now(), Fixing(fix))
      modifies this
      ensures Now() == Step(old(Now()), Fixing(fix))
    {
      match fix
      case Located(found) => OnLocated(found);
      case InitializeFails => OnRefused();
      case InitializeAnswered(id, protocol) => OnReplayed(id, protocol);
      case NoteAnswered(ok) => OnNoted(ok);
      case Install => OnOpened();
      case Settle => OnSettled();
      case Catch(expired) => OnThrown(expired);
      case SleepEnds => OnSlept();
    }

    /** Any legal run of events takes the closure where it takes the state machine. */
    method Run(events: seq<Event>)
      requires Valid() && Legal(Now(), events)
      modifies this
      ensures Now() == Play(old(Now()), events) && Valid()
    {
      hide Step, Enabled;
      ghost var s := Now();
      assert events[0..] == events;
      for k := 0 to |events|
        invariant Valid() && Legal(Now(), events[k..])
        invariant Play(Now(), events[k..]) == Play(s, events)
      {
        assert events[k..][1..] == events[k + 1..];
        Take(events[k]);
      }
    }
  }
}
