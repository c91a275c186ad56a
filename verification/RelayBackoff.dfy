/** How long one reconnect looks for vornd (`waitForVornd`, packages/mcp/src/relay.ts), on a clock of milliseconds. */
module RelayBackoff {
  import opened Relay

  datatype Backoff = Backoff(firstMs: nat, maxMs: nat, giveUpAfterMs: nat)

  const BACKOFF := Backoff(200, 5_000, 60_000)

  /** One attempt to reopen: whether it worked, how long it took, and whether the agent had closed by then. */
  datatype Try = Try(back: bool, took: nat, closing: bool)

  function Min(a: int, b: int): int {
    if a <= b then a else b
  }

  /** The delay before attempt `k + 1`. */
  function Delay(b: Backoff, k: nat): nat {
    if k == 0 then b.firstMs else Min(Delay(b, k - 1) * 2, b.maxMs)
  }

  /** The time attempt `k` ends, counted from the start of the wait. */
  function Now(b: Backoff, tries: nat -> Try, k: nat): nat
    decreases k, 0
  {
    if k == 0 then tries(0).took else Now(b, tries, k - 1) + Sleep(b, tries, k - 1) + tries(k).took
  }

  /** The sleep after attempt `k`, cut short at the deadline. */
  function Sleep(b: Backoff, tries: nat -> Try, k: nat): nat
    decreases k, 1
  {
    if Now(b, tries, k) >= b.giveUpAfterMs then 0 else Min(Delay(b, k), b.giveUpAfterMs - Now(b, tries, k))
  }

  /** Attempt `k` neither works nor is the last. */
  predicate GoesOn(b: Backoff, tries: nat -> Try, k: nat) {
    !tries(k).back && Now(b, tries, k) < b.giveUpAfterMs && !tries(k).closing
  }

  function Slept(b: Backoff, tries: nat -> Try, n: nat): nat {
    if n == 0 then 0 else Slept(b, tries, n - 1) + Sleep(b, tries, n - 1)
  }

  function Sum(s: seq<nat>, n: nat): nat
    requires n <= |s|
  {
    if n == 0 then 0 else Sum(s, n - 1) + s[n - 1]
  }

  lemma {:induction false} SumOfSleeps(b: Backoff, tries: nat -> Try, sleeps: seq<nat>, n: nat)
    requires n <= |sleeps| && forall k :: 0 <= k < n ==> GoesOn(b, tries, k) && sleeps[k] == Sleep(b, tries, k)
    ensures Sum(sleeps, n) == Slept(b, tries, n) <= b.giveUpAfterMs
  {
    SleptWithinDeadline(b, tries, n);
    if n > 0 {
      SumOfSleeps(b, tries, sleeps, n - 1);
    }
  }

  lemma {:induction false} SleptWithinNow(b: Backoff, tries: nat -> Try, n: nat)
    ensures Slept(b, tries, n) <= Now(b, tries, n)
  {
    if n > 0 {
      SleptWithinNow(b, tries, n - 1);
    }
  }

  /** However the attempts go, the sleeps of one reconnect add up to no more than it may take. */
  lemma SleptWithinDeadline(b: Backoff, tries: nat -> Try, n: nat)
    requires forall k :: 0 <= k < n ==> GoesOn(b, tries, k)
    ensures Slept(b, tries, n) <= b.giveUpAfterMs
  {
    if n > 0 {
      assert GoesOn(b, tries, n - 1);
      SleptWithinNow(b, tries, n - 1);
    }
  }

  /** Some attempt is the last. */
  ghost predicate Ends(b: Backoff, tries: nat -> Try) {
    exists k: nat :: !GoesOn(b, tries, k)
  }

  /** The wait is over whatever happens if and only if the first delay reaches the deadline or no delay is nothing. */
  lemma AlwaysEndsIff(b: Backoff)
    ensures (forall tries: nat -> Try :: Ends(b, tries))
      <==> b.firstMs >= b.giveUpAfterMs || (b.firstMs > 0 && b.maxMs > 0)
  {
    if b.firstMs >= b.giveUpAfterMs || (b.firstMs > 0 && b.maxMs > 0) {
      forall tries: nat -> Try ensures Ends(b, tries) {
        if forall k :: 0 <= k < b.giveUpAfterMs ==> GoesOn(b, tries, k) {
          DelaysPass(b, tries, b.giveUpAfterMs);
          assert !GoesOn(b, tries, b.giveUpAfterMs);
        }
      }
    } else {
      var idle := (k: nat) => Try(false, 0, false);
      forall k: nat ensures GoesOn(b, idle, k) {
        NothingPasses(b, idle, k);
      }
      assert !Ends(b, idle);
    }
  }

  /** Delays of something move the clock. */
  lemma {:induction false} DelaysPass(b: Backoff, tries: nat -> Try, n: nat)
    requires b.firstMs >= b.giveUpAfterMs || (b.firstMs > 0 && b.maxMs > 0)
    requires forall k :: 0 <= k < n ==> GoesOn(b, tries, k)
    ensures Now(b, tries, n) >= Min(n, b.giveUpAfterMs) && (b.maxMs > 0 && b.firstMs > 0 ==> Delay(b, n) > 0)
    ensures b.firstMs >= b.giveUpAfterMs && n > 0 ==> Now(b, tries, n) >= b.giveUpAfterMs
  {
    if n > 0 {
      DelaysPass(b, tries, n - 1);
      assert GoesOn(b, tries, n - 1);
    }
  }

  /** After the first delay others of nothing leave the clock where it is. */
  lemma {:induction false} NothingPasses(b: Backoff, idle: nat -> Try, k: nat)
    requires b.firstMs < b.giveUpAfterMs && (b.firstMs == 0 || b.maxMs == 0)
    requires forall i: nat :: idle(i) == Try(false, 0, false)
    ensures Now(b, idle, k) == (if k == 0 then 0 else b.firstMs) && Delay(b, k) == if k == 0 then b.firstMs else 0
  {
    if k > 0 {
      NothingPasses(b, idle, k - 1);
    }
  }

  /** The wait ends with the first attempt that works, or that fails after the deadline or the agent's close. */
  method WaitForVornd(b: Backoff, tries: nat -> Try) returns (outcome: Outcome, sleeps: seq<nat>)
    requires Ends(b, tries)
    ensures forall k :: 0 <= k < |sleeps| ==> GoesOn(b, tries, k) && sleeps[k] == Sleep(b, tries, k)
    ensures !GoesOn(b, tries, |sleeps|)
    ensures outcome == if tries(|sleeps|).back then Back else GaveUp
    ensures Sum(sleeps, |sleeps|) <= b.giveUpAfterMs
  {
    var deadline := b.giveUpAfterMs;
    var delay := b.firstMs;
    var clock: nat := 0;
    sleeps := [];
    ghost var last: nat :| !GoesOn(b, tries, last);
    while true
      invariant delay == Delay(b, |sleeps|)
      invariant clock + tries(|sleeps|).took == Now(b, tries, |sleeps|)
      invariant forall k :: 0 <= k < |sleeps| ==> GoesOn(b, tries, k) && sleeps[k] == Sleep(b, tries, k)
      invariant |sleeps| <= last
      decreases last - |sleeps|
    {
      var attempt := tries(|sleeps|);
      clock := clock + attempt.took;
      if attempt.back {
        SumOfSleeps(b, tries, sleeps, |sleeps|);
        return Back, sleeps;
      }
      if clock >= deadline || attempt.closing {
        SumOfSleeps(b, tries, sleeps, |sleeps|);
        return GaveUp, sleeps;
      }
      var pause := Min(delay, deadline - clock);
      sleeps := sleeps + [pause];
      clock := clock + pause;
      delay := Min(delay * 2, b.maxMs);
    }
  }

  /** With the standing backoff a reconnect sleeps 16 times at most. */
  lemma SixteenSleepsAtMost(tries: nat -> Try, n: nat)
    requires forall k :: 0 <= k < n ==> GoesOn(BACKOFF, tries, k)
    ensures n <= 16
  {
    var k: nat :| k == 16;
    DelaysSum(k);
    if n > k {
      assert GoesOn(BACKOFF, tries, k);
      LongEnough(tries, n, k);
    }
  }

  /** The first `k` delays, if none is cut short. */
  function Delays(k: nat): nat {
    if k == 0 then 0 else Delays(k - 1) + Delay(BACKOFF, k - 1)
  }

  lemma DelaysSum(k: nat)
    requires k == 16
    ensures Delays(k) >= BACKOFF.giveUpAfterMs
  {
    assert Delay(BACKOFF, 1) == 400 && Delay(BACKOFF, 2) == 800;
    assert Delay(BACKOFF, 3) == 1600 && Delay(BACKOFF, 4) == 3200;
    assert Delays(5) == 6200;
    FullDelay(5);
  }

  lemma {:induction false} FullDelay(k: nat)
    requires k >= 5 && Delays(5) == 6200 && Delay(BACKOFF, 4) == 3200
    ensures Delay(BACKOFF, k) == 5000 && Delays(k) == 6200 + (k - 5) * 5000
  {
    if k > 5 {
      FullDelay(k - 1);
    }
  }

  /** After `k` sleeps either the delays have all been waited out or the deadline has passed. */
  lemma {:induction false} LongEnough(tries: nat -> Try, n: nat, k: nat)
    requires k < n && forall j :: 0 <= j < n ==> GoesOn(BACKOFF, tries, j)
    ensures Now(BACKOFF, tries, k) >= Delays(k)
  {
    if k > 0 {
      LongEnough(tries, n, k - 1);
      assert GoesOn(BACKOFF, tries, k) && GoesOn(BACKOFF, tries, k - 1);
    }
  }
}
