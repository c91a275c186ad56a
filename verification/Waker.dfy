/** The coalescing waker as a step system: any number of threads ring, the main thread runs the blocks
  * (`WakeBox.ring`, `Core.woke`, apps/ios/Vorn/Core.swift).
  */
module Waker {

  /** The main thread: idle, past the flag's clearing in a block, or past the pump in `woke`. */
  datatype Main = Idle | Cleared | Pumped

  /** `sent` counts what vornd sent and `pumped` what of it was taken in; `due` rings have not reached the lock,
    * `dispatching` found the flag down and have not queued their block, `blocks` are queued;
    * `seen` and `revision` are the core's.
    */
  datatype State = State(sent: nat, due: nat, queued: bool, dispatching: nat, blocks: nat, main: Main,
                         pumped: nat, seen: nat, revision: nat)

  /** Nothing has been sent and nothing is under way. */
  predicate Begins(s: State) {
    s == State(0, 0, false, 0, 0, Idle, 0, 0, 0)
  }

  datatype Event = Send | Lock | Dispatch | Clear | Pump | Catch

  predicate Enabled(s: State, e: Event) {
    match e
    case Send => true
    case Lock => s.due > 0
    case Dispatch => s.dispatching > 0
    case Clear => s.blocks > 0 && s.main.Idle?
    case Pump => s.main.Cleared?
    case Catch => s.main.Pumped?
  }

  function Step(s: State, e: Event): State
    requires Enabled(s, e)
  {
    match e
    case Send => s.(sent := s.sent + 1, due := s.due + 1)
    case Lock =>
      if s.queued then s.(due := s.due - 1)
      else s.(due := s.due - 1, queued := true, dispatching := s.dispatching + 1)
    case Dispatch => s.(dispatching := s.dispatching - 1, blocks := s.blocks + 1)
    case Clear => s.(queued := false, blocks := s.blocks - 1, main := Cleared)
    case Pump => s.(pumped := s.sent, main := Pumped)
    case Catch =>
      if s.pumped != s.seen then s.(main := Idle, seen := s.pumped, revision := s.revision + 1)
      else s.(main := Idle)
  }

  predicate Legal(s: State, run: seq<Event>)
    decreases |run|
  {
    run == [] || (Enabled(s, run[0]) && Legal(Step(s, run[0]), run[1..]))
  }

  function Play(s: State, run: seq<Event>): State
    requires Legal(s, run)
    decreases |run|
  {
    if run == [] then s else Play(Step(s, run[0]), run[1..])
  }

  /** The flag is up exactly while one block has yet to clear it, and there is never more than one. */
  predicate OneBlock(s: State) {
    s.dispatching + s.blocks == if s.queued then 1 else 0
  }

  /** What was sent and not pumped is covered: by a ring to come, a block to clear the flag, or a pump about to run. */
  predicate Covered(s: State) {
    && s.pumped <= s.sent && s.seen <= s.pumped
    && (s.pumped < s.sent ==> s.due > 0 || s.queued || s.main.Cleared?)
    && (s.seen < s.pumped ==> s.main.Pumped?)
  }

  /** The screens were told if and only if there was something to see. */
  predicate Told(s: State) {
    s.revision == 0 <==> s.seen == 0
  }

  predicate Inv(s: State) {
    OneBlock(s) && Covered(s) && Told(s)
  }

  lemma StepKeeps(s: State, e: Event)
    requires Inv(s) && Enabled(s, e)
    ensures Inv(Step(s, e))
  {
  }

  /** In every interleaving, one block at most has yet to clear the flag and nothing sent is left uncovered. */
  lemma {:induction false} NoWakeupIsLost(s: State, run: seq<Event>)
    requires Inv(s) && Legal(s, run)
    ensures Inv(Play(s, run))
    decreases |run|
  {
    if run != [] {
      StepKeeps(s, run[0]);
      NoWakeupIsLost(Step(s, run[0]), run[1..]);
    }
  }

  predicate Quiet(s: State) {
    s.due == 0 && s.dispatching == 0 && s.blocks == 0 && s.main.Idle?
  }

  /** How many steps are left at most if vornd sends nothing more. */
  function Busy(s: State): nat {
    s.due * 5 + s.dispatching * 4 + s.blocks * 3 + match s.main case Idle => 0 case Cleared => 2 case Pumped => 1
  }

  lemma GoesQuiet(s: State, e: Event)
    requires Enabled(s, e) && !e.Send?
    ensures Busy(Step(s, e)) < Busy(s)
  {
  }

  /** Something can go on unless all is quiet. */
  lemma GoesOnUnlessQuiet(s: State)
    requires Inv(s) && !Quiet(s)
    ensures exists e: Event :: !e.Send? && Enabled(s, e)
  {
    var e := if s.due > 0 then Lock else if s.dispatching > 0 then Dispatch
      else if s.main.Cleared? then Pump else if s.main.Pumped? then Catch else Clear;
    assert Enabled(s, e);
  }

  /** A run without sends uses up what is left to do, one step at a time, and sends nothing. */
  lemma {:induction false} RunsDown(s: State, run: seq<Event>)
    requires Inv(s) && Legal(s, run) && Send !in run
    ensures |run| + Busy(Play(s, run)) <= Busy(s) && Inv(Play(s, run)) && Play(s, run).sent == s.sent
    decreases |run|
  {
    if run != [] {
      assert run[0] in run && forall e :: e in run[1..] ==> e in run;
      StepKeeps(s, run[0]);
      GoesQuiet(s, run[0]);
      RunsDown(Step(s, run[0]), run[1..]);
    }
  }

  predicate CaughtUp(t: State, sent: nat) {
    Quiet(t) && t.sent == sent && t.pumped == sent && t.seen == sent
  }

  /** Once vornd sends nothing more, every run, however it interleaves, is over within `Busy` steps, and one that cannot
    * go on has caught up with everything sent.
    */
  lemma {:induction false} CatchesUp(s: State, run: seq<Event>)
    requires Inv(s) && Legal(s, run) && Send !in run
    ensures |run| <= Busy(s)
    ensures |run| == Busy(s) || (forall e: Event :: !e.Send? ==> !Enabled(Play(s, run), e))
      ==> CaughtUp(Play(s, run), s.sent)
  {
    RunsDown(s, run);
    StopsCaughtUp(Play(s, run), s.sent);
  }

  lemma StopsCaughtUp(t: State, sent: nat)
    requires Inv(t) && t.sent == sent
    ensures Busy(t) == 0 || (forall e: Event :: !e.Send? ==> !Enabled(t, e)) ==> CaughtUp(t, sent)
  {
    if !Quiet(t) {
      GoesOnUnlessQuiet(t);
    }
  }

  /** Whenever all is quiet, everything sent has been pumped and seen, and the screens told if there was anything. */
  lemma {:induction false} QuietHasSeenAll(s: State, run: seq<Event>)
    requires Begins(s) && Legal(s, run)
    ensures AtRest(Play(s, run))
  {
    NoWakeupIsLost(s, run);
    RestIsCaughtUp(Play(s, run));
  }

  /** If all is quiet, everything sent is pumped and seen, and the screens were told if there was anything. */
  predicate AtRest(t: State) {
    Quiet(t) ==> t.pumped == t.sent && t.seen == t.sent && Told(t)
  }

  lemma RestIsCaughtUp(t: State)
    requires Inv(t)
    ensures AtRest(t)
  {
  }

  /** However many rings come before the block clears the flag, none of them queues another. */
  lemma {:induction false} RingsCoalesce(s: State, run: seq<Event>)
    requires Inv(s) && s.queued && Legal(s, run) && forall e :: e in run ==> e == Send || e == Lock
    ensures var t := Play(s, run); t.queued && t.dispatching == s.dispatching && t.blocks == s.blocks
    decreases |run|
  {
    if run != [] {
      assert run[0] in run && forall e :: e in run[1..] ==> e in run;
      StepKeeps(s, run[0]);
      RingsCoalesce(Step(s, run[0]), run[1..]);
    }
  }
}
