/** The periodic loop of main.cpp: ticks, polling sleeps and the duration check.
    Times are integer nanoseconds since the program's start time. */
module MainLoop {
  import opened Schedule

  const POLL_SLICE: nat := 50_000_000

  /** Some tick falls due in the 50 ms from `limit` on. */
  ghost predicate TickSoonAfter(slack: nat, limit: real) {
    exists k: nat :: k >= 1 && InFirstSlice(TickTime(slack, k), limit)
  }

  predicate InFirstSlice(due: nat, limit: real) {
    limit <= due as real < limit + POLL_SLICE as real
  }

  /** The wake-up time that one polling step asks for. */
  function PollTarget(now: nat, nextTick: nat): nat
    requires now < nextTick
  {
    if now + POLL_SLICE < nextTick then now + POLL_SLICE else nextTick
  }

  /** `late(i)` is how much later than asked iteration i ends: scheduling delays and the time spent in
      tick. Ideal means never late. */
  ghost predicate IdealClock(late: nat -> nat) {
    forall i :: late(i) == 0
  }

  /** No iteration ends more than `lag` later than asked. */
  ghost predicate LateAtMost(late: nat -> nat, lag: nat) {
    forall i :: late(i) <= lag
  }

  /** At the end: every tick was at most `lag` late, every tick due more than `lag` before the limit has run (with
      less than a second of lag every tick due by the limit), and the loop stopped within two polling steps and
      two delays. */
  ghost predicate Stopped(slack: nat, limit: real, fired: seq<nat>, exit: nat, lag: nat) {
    && (forall k :: 0 <= k < |fired| ==> TickTime(slack, k + 1) <= fired[k] <= TickTime(slack, k + 1) + lag)
    && (forall k :: k >= 1 && (TickTime(slack, k) + lag) as real < limit ==> k <= |fired|)
    && (lag < SECOND ==> forall k :: k >= 1 && TickTime(slack, k) as real <= limit ==> k <= |fired|)
    && exit as real < limit + 2.0 * (POLL_SLICE + lag) as real
  }

  /** The loop with a duration limit, run until it stops by itself. `fired` lists the times at which the
      ticks 1, 2, 3, ... were run; `exit` is the time at which the loop is left. */
  method PollUntil(slack: nat, limit: real, late: nat -> nat) returns (fired: seq<nat>, exit: nat)
    requires limit > 0.0 && 1 <= slack <= MAX_SLACK
    // Never early, in either case.
    ensures forall k :: 0 <= k < |fired| ==> TickTime(slack, k + 1) <= fired[k]
    ensures limit <= exit as real
    // No drift when no delay exceeds one second.
    ensures forall lag: nat :: LateAtMost(late, lag) && lag <= SECOND ==> Stopped(slack, limit, fired, exit, lag)
    // Exactly on time, and stopping within two polling steps, when nothing is ever late.
    ensures IdealClock(late) ==> forall k :: 0 <= k < |fired| ==> fired[k] == TickTime(slack, k + 1)
    ensures IdealClock(late) ==> exit as real < limit + 2.0 * POLL_SLICE as real
    ensures IdealClock(late) ==> forall k :: k >= 1 && (TickTime(slack, k) as real) < limit ==> k <= |fired|
    ensures IdealClock(late) ==> (exit as real < limit + POLL_SLICE as real <==> TickSoonAfter(slack, limit))
  {
    var now: nat := 0;
    var tickCount: nat := 0;
    var nextTick := SECOND + slack;
    var i: nat := 0;
    fired := [];
    while true
      invariant nextTick == TickTime(slack, tickCount + 1) && tickCount == |fired|
      invariant forall k :: 0 <= k < |fired| ==> TickTime(slack, k + 1) <= fired[k]
      invariant IdealClock(late) ==> OnTime(slack, limit, fired, now, nextTick)
      invariant forall lag: nat :: LateAtMost(late, lag) && lag <= SECOND ==> NoDrift(slack, limit, fired, now, lag)
      decreases if now as real < limit then (limit - now as real).Floor + 1 else 0,
                if now >= nextTick then now - nextTick + 1 else 0
    {
      var wall := now;
      ghost var before := fired;
      if now >= nextTick {
        tickCount := tickCount + 1;
        fired := fired + [now];
        nextTick := (tickCount + 1) * SECOND + slack;
        now := now + late(i);
      } else {
        now := PollTarget(now, nextTick) + late(i);
      }
      forall lag: nat | LateAtMost(late, lag) && lag <= SECOND
        ensures wall as real < limit ==> NoDrift(slack, limit, fired, now, lag)
        ensures wall as real >= limit ==> Stopped(slack, limit, fired, now, lag)
      {
        DriftStep(slack, limit, before, wall, fired, now, late(i), lag);
      }
      i := i + 1;
      if wall as real >= limit {
        if IdealClock(late) {
          if tickCount > |before| {
            assert InFirstSlice(TickTime(slack, tickCount), limit);
          } else {
            SleepExit(slack, limit, fired, wall, nextTick, now);
          }
        }
        return fired, now;
      }
    }
  }

  /** With an ideal clock: every tick so far ran on time and before the limit, none is overdue, and the
      clock is less than one polling slice past the limit. */
  ghost predicate OnTime(slack: nat, limit: real, fired: seq<nat>, now: nat, nextTick: nat) {
    && (forall k :: 0 <= k < |fired| ==> fired[k] == TickTime(slack, k + 1) && (fired[k] as real) < limit)
    && now <= nextTick
    && now as real < limit + POLL_SLICE as real
  }

  /** With delays of at most `lag`: every tick so far is at most `lag` late, and so is the clock against the next. */
  ghost predicate NoDrift(slack: nat, limit: real, fired: seq<nat>, now: nat, lag: nat) {
    && (forall k :: 0 <= k < |fired| ==> TickTime(slack, k + 1) <= fired[k] <= TickTime(slack, k + 1) + lag)
    && now <= TickTime(slack, |fired| + 1) + lag
    && now as real < limit + (POLL_SLICE + lag) as real
  }

  /** One iteration, from the time `wall` to `now`: a tick, or a polling step, and the delay. */
  predicate LoopStep(slack: nat, before: seq<nat>, wall: nat, fired: seq<nat>, now: nat, delay: nat) {
    var due := TickTime(slack, |before| + 1);
    if wall >= due then fired == before + [wall] && now == wall + delay
    else fired == before && now == PollTarget(wall, due) + delay
  }

  /** One iteration keeps the delays from adding up: a tick that runs `lag` late ends, after another delay, at
      most `lag` behind the next one. */
  lemma DriftStep(slack: nat, limit: real, before: seq<nat>, wall: nat, fired: seq<nat>, now: nat,
                  delay: nat, lag: nat)
    requires lag <= SECOND && delay <= lag && NoDrift(slack, limit, before, wall, lag)
    requires LoopStep(slack, before, wall, fired, now, delay)
    ensures wall as real < limit ==> NoDrift(slack, limit, fired, now, lag)
    ensures wall as real >= limit ==> Stopped(slack, limit, fired, now, lag)
  {
    forall k: nat | k > |fired|
      ensures wall < TickTime(slack, k) + lag && (lag < SECOND ==> wall < TickTime(slack, k))
    {
      DueOrder(slack, |fired| + 1, k);
    }
  }

  /** Every iteration before the limit keeps the lateness within `lag`, when its delay is. */
  ghost predicate KeepsUp(slack: nat, limit: real, lag: nat) {
    forall before: seq<nat>, wall: nat, fired: seq<nat>, now: nat, delay: nat
      {:trigger LoopStep(slack, before, wall, fired, now, delay)} ::
      delay <= lag && (wall as real) < limit && NoDrift(slack, limit, before, wall, lag)
      && LoopStep(slack, before, wall, fired, now, delay)
      ==> NoDrift(slack, limit, fired, now, lag)
  }

  /** One second is the exact bound: with longer delays a tick that runs late makes the next one run later. */
  lemma DriftExactly(slack: nat, limit: real, lag: nat)
    requires (TickTime(slack, 1) + lag) as real < limit
    ensures KeepsUp(slack, limit, lag) <==> lag <= SECOND
  {
    if lag <= SECOND {
      forall before: seq<nat>, wall: nat, fired: seq<nat>, now: nat, delay: nat
        | delay <= lag && (wall as real) < limit && NoDrift(slack, limit, before, wall, lag)
          && LoopStep(slack, before, wall, fired, now, delay)
        ensures NoDrift(slack, limit, fired, now, lag)
      {
        DriftStep(slack, limit, before, wall, fired, now, delay, lag);
      }
    } else {
      var wall := TickTime(slack, 1) + lag;
      assert NoDrift(slack, limit, [], wall, lag);
      assert LoopStep(slack, [], wall, [] + [wall], wall + lag, lag);
      assert !NoDrift(slack, limit, [] + [wall], wall + lag, lag);
    }
  }

  lemma DueOrder(slack: nat, j: nat, k: nat)
    requires j <= k
    ensures TickTime(slack, j) <= TickTime(slack, k)
  {
  }

  /** Leaving the loop after a sleep: within one slice of the limit exactly when a tick falls due there. */
  lemma SleepExit(slack: nat, limit: real, fired: seq<nat>, now: nat, nextTick: nat, exit: nat)
    requires OnTime(slack, limit, fired, now, nextTick) && nextTick == TickTime(slack, |fired| + 1)
    requires now < nextTick && limit <= now as real && exit == PollTarget(now, nextTick)
    ensures exit as real < limit + POLL_SLICE as real <==> TickSoonAfter(slack, limit)
  {
    if exit as real < limit + POLL_SLICE as real {
      assert InFirstSlice(TickTime(slack, |fired| + 1), limit);
    }
    forall j: nat | 1 <= j <= |fired| ensures (TickTime(slack, j) as real) < limit {
      assert fired[j - 1] == TickTime(slack, j);
    }
    if TickSoonAfter(slack, limit) {
      var k: nat :| k >= 1 && InFirstSlice(TickTime(slack, k), limit);
      assert k > |fired|;
      DueOrder(slack, |fired| + 1, k);
    }
  }

  /** Leaving within one polling slice of the limit is not guaranteed: with the smallest slack and a limit
      of 70 ms no tick is near, so by PollUntil's contract the loop is left at 120 ms or later. */
  lemma LateStop()
    ensures !TickSoonAfter(1, 70_000_000.0)
  {
    forall k: nat | k >= 1 ensures !InFirstSlice(TickTime(1, k), 70_000_000.0) {
      DueOrder(1, 1, k);
    }
  }

  /** The late stop happens: with an ideal clock the loop asked to stop after 70 ms is left at 120 ms or
      later, more than 50 ms too late. */
  method StopsLate() returns (fired: seq<nat>, exit: nat)
    ensures 120_000_000 <= exit < 170_000_000
  {
    LateStop();
    var onTime: nat -> nat := _ => 0;
    fired, exit := PollUntil(1, 70_000_000.0, onTime);
    assert IdealClock(onTime);
  }
}
