/** Waiting until the Codex writer lock has been free for a stable interval. The k-th turn of the loop
    reads the clock, in seconds, and probes the lock. */
module LockWait {
  datatype Wait = Wait(timeout: real, stable: real, poll: real)

  function AtLeast(low: real, x: real): real { if x < low then low else x }

  /** The values the loop works with. */
  function Bounded(timeoutSeconds: real, stableSeconds: real, pollSeconds: real): (w: Wait)
    ensures w.timeout >= 0.0 && w.stable >= 0.0 && w.poll >= 0.01
  {
    Wait(AtLeast(0.0, timeoutSeconds), AtLeast(0.0, stableSeconds), AtLeast(0.01, pollSeconds))
  }

  function SleepFor(w: Wait, deadline: real, now: real): real {
    var left := AtLeast(0.0, deadline - now);
    if w.poll < left then w.poll else left
  }

  /** A value that is too low is raised to its bound; any other one is used as it is. */
  lemma BoundedIs(timeoutSeconds: real, stableSeconds: real, pollSeconds: real)
    ensures var w := Bounded(timeoutSeconds, stableSeconds, pollSeconds);
      && w.timeout >= timeoutSeconds && (w.timeout == timeoutSeconds || w.timeout == 0.0)
      && w.stable >= stableSeconds && (w.stable == stableSeconds || w.stable == 0.0)
      && w.poll >= pollSeconds && (w.poll == pollSeconds || w.poll == 0.01)
  {
  }

  /** The loop sleeps one poll interval, but not past the deadline. */
  lemma SleepsToDeadline(w: Wait, deadline: real, now: real)
    requires w.poll > 0.0
    ensures var woken := now + SleepFor(w, deadline, now);
      if now + w.poll <= deadline then woken == now + w.poll else woken == if now <= deadline then deadline else now
  {
  }

  ghost predicate TurnSleeps(clock: nat -> real, w: Wait, deadline: real, k: nat) {
    clock(k) + SleepFor(w, deadline, clock(k)) <= clock(k + 1)
  }

  /** The clock moves on by at least what the loop asked to sleep. */
  ghost predicate ClockSleeps(clock: nat -> real, w: Wait, deadline: real) {
    forall k: nat :: TurnSleeps(clock, w, deadline, k)
  }

  /** All probes from the i-th to the j-th found the lock free. */
  ghost predicate FreeRun(free: nat -> bool, i: nat, j: nat) {
    i <= j && forall k: nat :: i <= k <= j ==> free(k)
  }

  /** An unbroken run of free probes that ends at the j-th one spans the stable interval. */
  ghost predicate StableAt(clock: nat -> real, free: nat -> bool, w: Wait, j: nat) {
    exists i: nat :: FreeRun(free, i, j) && clock(j) - clock(i) >= w.stable
  }

  /** The turn at which the loop ends: the first that is stable, or at or past the deadline. */
  ghost predicate EndsAt(clock: nat -> real, free: nat -> bool, w: Wait, deadline: real, j: nat) {
    && (StableAt(clock, free, w, j) || clock(j) >= deadline)
    && forall k: nat :: k < j ==> !StableAt(clock, free, w, k) && clock(k) < deadline
  }

  /** The turn at which the current run of free probes began. */
  ghost predicate RunBegan(free: nat -> bool, i: nat, k: nat) {
    i < k && FreeRun(free, i, k - 1) && (i == 0 || !free(i - 1))
  }

  lemma ClockRises(clock: nat -> real, w: Wait, deadline: real, i: nat, j: nat)
    requires ClockSleeps(clock, w, deadline) && w.poll > 0.0 && i <= j
    ensures clock(i) <= clock(j)
    decreases j - i
  {
    if i < j {
      ClockRises(clock, w, deadline, i, j - 1);
      assert TurnSleeps(clock, w, deadline, j - 1);
    }
  }

  /** The longest run is the one to look at. */
  lemma StableIffLongestIs(clock: nat -> real, free: nat -> bool, w: Wait, deadline: real, i: nat, j: nat)
    requires ClockSleeps(clock, w, deadline) && w.poll > 0.0 && RunBegan(free, i, j + 1)
    ensures StableAt(clock, free, w, j) <==> clock(j) - clock(i) >= w.stable
  {
    if StableAt(clock, free, w, j) {
      var h: nat :| FreeRun(free, h, j) && clock(j) - clock(h) >= w.stable;
      if h < i {
        assert false;
      }
      ClockRises(clock, w, deadline, i, h);
    }
  }

  /** How many more turns the loop can take. */
  function TurnsLeft(poll: real, left: real): nat
    requires poll > 0.0
  {
    if left <= 0.0 then 0
    else
      FloorIsNat(left, poll);
      1 + (left / poll).Floor
  }

  lemma FloorIsNat(left: real, poll: real)
    requires poll > 0.0 && left > 0.0
    ensures (left / poll).Floor >= 0
  {
    assert left / poll > 0.0;
  }

  lemma TurnsFall(poll: real, left: real, less: real)
    requires poll > 0.0 && left > 0.0 && (less <= 0.0 || less <= left - poll)
    ensures TurnsLeft(poll, less) < TurnsLeft(poll, left)
  {
    if less > 0.0 {
      QuotientFalls(poll, left, less);
    } else {
      FloorIsNat(left, poll);
    }
  }

  lemma QuotientFalls(poll: real, left: real, less: real)
    requires poll > 0.0 && less <= left - poll
    ensures less / poll <= left / poll - 1.0
  {
    var a, b := less / poll, left / poll - 1.0;
    assert a * poll == less;
    assert b * poll == left / poll * poll - poll == left - poll;
    if a > b {
      MulGrows(poll, a, b);
      assert false;
    }
  }

  lemma MulGrows(poll: real, a: real, b: real)
    requires poll > 0.0 && a > b
    ensures a * poll > b * poll
  {
    assert (a - b) * poll > 0.0;
  }

  /** A free probe starts a run or carries it on. */
  lemma RunGoesOn(free: nat -> bool, since: nat, k: nat, running: bool)
    requires free(k) && if running then RunBegan(free, since, k) else k == 0 || !free(k - 1)
    ensures RunBegan(free, if running then since else k, k + 1)
  {
  }

  lemma StableNeedsFree(clock: nat -> real, free: nat -> bool, w: Wait, j: nat)
    ensures StableAt(clock, free, w, j) ==> free(j)
  {
  }

  lemma NextTurn(clock: nat -> real, w: Wait, deadline: real, k: nat)
    requires ClockSleeps(clock, w, deadline) && w.poll > 0.0 && clock(k) < deadline
    ensures TurnsLeft(w.poll, deadline - clock(k + 1)) < TurnsLeft(w.poll, deadline - clock(k))
  {
    hide TurnsLeft;
    assert TurnSleeps(clock, w, deadline, k);
    TurnsFall(w.poll, deadline - clock(k), deadline - clock(k + 1));
  }

  /** The lock has been found free for the interval asked for, a negative one being none. */
  ghost predicate IsStableTurn(clock: nat -> real, free: nat -> bool, stableSeconds: real, k: nat) {
    exists h: nat :: FreeRun(free, h, k) && clock(k) - clock(h) >= stableSeconds && clock(k) - clock(h) >= 0.0
  }

  /** The timeout is over, a negative one at once. */
  predicate IsPastTurn(clock: nat -> real, start: real, timeoutSeconds: real, k: nat) {
    clock(k) >= start && clock(k) >= start + timeoutSeconds
  }

  /** The answer is that of the first turn at which the lock is stable or the timeout is over. */
  ghost predicate AnswersAt(
      clock: nat -> real, free: nat -> bool, start: real, timeoutSeconds: real, stableSeconds: real, released: bool,
      j: nat)
  {
    && (forall k: nat :: k < j ==>
          !IsStableTurn(clock, free, stableSeconds, k) && !IsPastTurn(clock, start, timeoutSeconds, k))
    && (released <==> IsStableTurn(clock, free, stableSeconds, j))
    && (!released ==> IsPastTurn(clock, start, timeoutSeconds, j))
  }

  lemma TurnsMean(
      clock: nat -> real, free: nat -> bool, timeoutSeconds: real, stableSeconds: real, pollSeconds: real,
      start: real, released: bool, j: nat)
    requires var w := Bounded(timeoutSeconds, stableSeconds, pollSeconds);
      EndsAt(clock, free, w, start + w.timeout, j) && released == StableAt(clock, free, w, j)
    ensures AnswersAt(clock, free, start, timeoutSeconds, stableSeconds, released, j)
  {
    hide StableAt, IsStableTurn;
    var w := Bounded(timeoutSeconds, stableSeconds, pollSeconds);
    BoundedIs(timeoutSeconds, stableSeconds, pollSeconds);
    forall k: nat
      ensures StableAt(clock, free, w, k) <==> IsStableTurn(clock, free, stableSeconds, k)
    {
      StableTurnIs(clock, free, w, stableSeconds, k);
    }
  }

  lemma StableTurnIs(clock: nat -> real, free: nat -> bool, w: Wait, stableSeconds: real, k: nat)
    requires w.stable == if stableSeconds >= 0.0 then stableSeconds else 0.0
    ensures StableAt(clock, free, w, k) <==> IsStableTurn(clock, free, stableSeconds, k)
  {
  }

  /** The loop ends at the first turn that is stable or at or past the deadline, and answers whether it
      is stable. */
  method WaitForRelease(
      timeoutSeconds: real, stableSeconds: real, pollSeconds: real, start: real,
      clock: nat -> real, free: nat -> bool)
    returns (released: bool)
    requires var w := Bounded(timeoutSeconds, stableSeconds, pollSeconds);
      ClockSleeps(clock, w, start + w.timeout)
    ensures var w := Bounded(timeoutSeconds, stableSeconds, pollSeconds);
      exists j: nat :: EndsAt(clock, free, w, start + w.timeout, j) && released == StableAt(clock, free, w, j)
    ensures exists j: nat :: AnswersAt(clock, free, start, timeoutSeconds, stableSeconds, released, j)
  {
    hide StableAt, RunBegan, ClockSleeps, TurnsLeft, Bounded, AnswersAt;
    var w := Bounded(timeoutSeconds, stableSeconds, pollSeconds);
    var deadline := start + w.timeout;
    var k: nat := 0;
    var running, since: nat := false, 0;
    while true
      invariant if running then RunBegan(free, since, k) else k == 0 || !free(k - 1)
      invariant forall h: nat :: h < k ==> !StableAt(clock, free, w, h) && clock(h) < deadline
      decreases TurnsLeft(w.poll, deadline - clock(k))
    {
      var now := clock(k);
      StableNeedsFree(clock, free, w, k);
      if free(k) {
        RunGoesOn(free, since, k, running);
        if !running {
          running, since := true, k;
        }
        StableIffLongestIs(clock, free, w, deadline, since, k);
        if now - clock(since) >= w.stable {
          assert EndsAt(clock, free, w, deadline, k);
          TurnsMean(clock, free, timeoutSeconds, stableSeconds, pollSeconds, start, true, k);
          return true;
        }
      } else {
        running := false;
      }
      if now >= deadline {
        assert EndsAt(clock, free, w, deadline, k);
        TurnsMean(clock, free, timeoutSeconds, stableSeconds, pollSeconds, start, false, k);
        return false;
      }
      NextTurn(clock, w, deadline, k);
      k := k + 1;
    }
  }

  /** True means an unbroken run of free probes that spans the stable interval; False means the
      deadline was reached without one. */
  lemma AnswerMeans(clock: nat -> real, free: nat -> bool, w: Wait, deadline: real, j: nat)
    requires EndsAt(clock, free, w, deadline, j)
    ensures
      if StableAt(clock, free, w, j) then
        free(j) && exists i: nat :: FreeRun(free, i, j) && clock(j) - clock(i) >= w.stable
            else clock(j) >= deadline && forall k: nat :: k <= j ==> !StableAt(clock, free, w, k)
  {
    if StableAt(clock, free, w, j) {
      var i: nat :| FreeRun(free, i, j) && clock(j) - clock(i) >= w.stable;
      assert free(j);
    }
  }

  /** A lock that stays free from some turn on is reported as free, if that leaves time for the stable
      interval before the deadline. */
  lemma FreeInTimeIsSeen(clock: nat -> real, free: nat -> bool, w: Wait, deadline: real, i: nat, j: nat)
    requires ClockSleeps(clock, w, deadline) && w.poll > 0.0
    requires forall k: nat :: k >= i ==> free(k)
    requires clock(i) < deadline && clock(i) + w.stable <= deadline
    requires EndsAt(clock, free, w, deadline, j)
    ensures StableAt(clock, free, w, j)
  {
    if clock(j) >= deadline {
      if j < i {
        ClockRises(clock, w, deadline, j, i);
      }
      assert FreeRun(free, i, j) && clock(j) - clock(i) >= w.stable;
    }
  }
}
