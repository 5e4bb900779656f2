/** The publisher's drift-free schedule and the tick offset chosen for it (pub_mode.cpp, main.cpp).
    All times are integer nanoseconds since the program's start time. */
module Schedule {
  import opened Config
  import opened Rounding
  import opened Wire

  const SECOND: nat := 1_000_000_000
  const MAX_SLACK: nat := 100_000_000

  function Max(a: int, b: int): int { if a >= b then a else b }

  function Min(a: int, b: int): int { if a <= b then a else b }

  // ---------------------------------------------------------------- interval and slack

  /** llround(1e9 / (rate_hz * max(1, burst))), rounding half away from zero. */
  function RoundedInterval(rateHz: real, burst: U32): nat
    requires rateHz > 0.0
  {
    var msgRate := rateHz * Max(1, burst) as real;
    PositiveProduct(rateHz, Max(1, burst) as real);
    assert 1000000000.0 / msgRate >= 0.0;
    (1000000000.0 / msgRate + 0.5).Floor
  }

  /** The interval is the nearest whole number of nanoseconds to the period of one message; a burst of zero
      counts as one. */
  lemma IntervalRounds(rateHz: real, burst: U32)
    requires rateHz > 0.0
    ensures var perSecond := rateHz * (if burst == 0 then 1 else burst) as real;
      && RoundsTo(RoundedInterval(rateHz, burst), 1_000_000_000.0, perSecond)
      && (RoundedInterval(rateHz, burst) >= 1 ==> IntervalNs(rateHz, burst) == RoundedInterval(rateHz, burst))
      && (RoundedInterval(rateHz, burst) == 0 ==> IntervalNs(rateHz, burst) == 1)
  {
    PositiveProduct(rateHz, Max(1, burst) as real);
    RoundedQuotient(1_000_000_000.0, rateHz * Max(1, burst) as real, RoundedInterval(rateHz, burst));
  }

  lemma PositiveProduct(a: real, b: real)
    requires a > 0.0 && b > 0.0
    ensures a * b > 0.0
  {
  }

  /** The publisher never uses an interval below one nanosecond. */
  function IntervalNs(rateHz: real, burst: U32): (r: nat)
    requires rateHz > 0.0
    ensures r >= 1
  {
    Max(1, RoundedInterval(rateHz, burst))
  }

  predicate RateLimited(m: ModeSpec) { m.kind.KPub? && m.pub.rateHz > 0.0 }

  function HalfInterval(m: ModeSpec): nat
    requires RateLimited(m)
  {
    Max(1, RoundedInterval(m.pub.rateHz, m.pub.burst) / 2)
  }

  /** The slack is the largest half interval among the rate-limited publishers, between 1 ns and 100 ms. */
  ghost predicate IsSlack(modes: seq<ModeSpec>, slack: nat) {
    exists largest: nat ::
      && slack == Min(largest, MAX_SLACK)
      && (forall i :: 0 <= i < |modes| && RateLimited(modes[i]) ==> HalfInterval(modes[i]) <= largest)
      && (largest == 1 || exists i :: 0 <= i < |modes| && RateLimited(modes[i]) && HalfInterval(modes[i]) == largest)
      && largest >= 1
  }

  method PubTickSlack(modes: seq<ModeSpec>) returns (slack: nat)
    ensures IsSlack(modes, slack)
    ensures 1 <= slack <= 100_000_000
  {
    slack := 1;
    for i := 0 to |modes|
      invariant slack >= 1
      invariant forall j :: 0 <= j < i && RateLimited(modes[j]) ==> HalfInterval(modes[j]) <= slack
      invariant slack == 1 || exists j :: 0 <= j < i && RateLimited(modes[j]) && HalfInterval(modes[j]) == slack
    {
      var spec := modes[i];
      if !spec.kind.KPub? || spec.pub.rateHz <= 0.0 {
        continue;
      }
      var half := Max(1, RoundedInterval(spec.pub.rateHz, spec.pub.burst) / 2);
      assert RateLimited(modes[i]) && HalfInterval(modes[i]) == half;
      slack := Max(slack, half);
    }
    ghost var largest := slack;
    slack := Min(slack, MAX_SLACK);
  }

  /** With a single rate-limited publisher the tick comes after the last message of its second and before
      the next one: the slack is shorter than the interval, unless the interval is a single nanosecond. */
  lemma SingleSlack(modes: seq<ModeSpec>, i: nat, slack: nat)
    requires i < |modes| && RateLimited(modes[i])
    requires forall j :: 0 <= j < |modes| && RateLimited(modes[j]) ==> j == i
    requires IsSlack(modes, slack)
    ensures var interval := IntervalNs(modes[i].pub.rateHz, modes[i].pub.burst);
      && slack == Min(HalfInterval(modes[i]), 100_000_000)
      && (slack < interval <==> interval > 1)
  {
  }

  /** Uncapped, the slack of a single publisher puts the ticks half an interval behind its deadlines. */
  lemma SlackCentres(modes: seq<ModeSpec>, i: nat, slack: nat)
    requires i < |modes| && RateLimited(modes[i])
    requires forall j :: 0 <= j < |modes| && RateLimited(modes[j]) ==> j == i
    requires IsSlack(modes, slack)
    ensures var interval := IntervalNs(modes[i].pub.rateHz, modes[i].pub.burst);
      1 < interval && interval / 2 <= 100_000_000 ==> slack % interval == interval / 2
  {
    SingleSlack(modes, i, slack);
    HalfRemainder(IntervalNs(modes[i].pub.rateHz, modes[i].pub.burst));
  }

  lemma HalfRemainder(d: nat)
    requires d > 0
    ensures d > 1 ==> 0 < d / 2 && (d / 2) % d == d / 2
  {
  }

  // ---------------------------------------------------------------- counting messages on the schedule

  /** Message m is due at (m+1)*interval. */
  function Deadline(interval: nat, m: nat): nat { (m + 1) * interval }

  /** How many messages, starting with number m0, are due by time t. */
  function DueBy(interval: nat, m0: nat, t: nat): nat
    requires interval > 0
  {
    Max(0, t / interval - m0)
  }

  lemma DivisionBounds(t: nat, d: nat)
    requires d > 0
    ensures (t / d) * d <= t < (t / d + 1) * d
  {
  }

  lemma ProductOrder(a: int, b: int, d: nat)
    requires d > 0
    ensures a <= b <==> a * d <= b * d
    ensures a < b <==> a * d < b * d
  {
    if a < b {
      ProductGrows(a, b, d);
    } else if a > b {
      ProductGrows(b, a, d);
    }
  }

  lemma {:induction false} ProductGrows(a: int, b: int, d: nat)
    requires d > 0 && a < b
    ensures a * d < b * d
  {
    if d > 1 {
      ProductGrows(a, b, d - 1);
      assert a * d == a * (d - 1) + a;
      assert b * d == b * (d - 1) + b;
    }
  }

  /** DueBy is exact: the i-th message from m0 on is due by t if and only if i < DueBy. */
  lemma DueByIsCount(interval: nat, m0: nat, t: nat, i: nat)
    requires interval > 0
    ensures Deadline(interval, m0 + i) <= t <==> i < DueBy(interval, m0, t)
  {
    var q := t / interval;
    DivisionBounds(t, interval);
    ProductOrder(m0 + i + 1, q, interval);
    ProductOrder(m0 + i + 1, q + 1, interval);
  }

  /** The k-th tick falls due at k seconds plus the slack; k >= 1. */
  function TickTime(slack: nat, k: nat): nat { k * SECOND + slack }

  /** What a publisher counts in the k-th tick, for k >= 1, when every message goes out when due. */
  function TickCount(interval: nat, m0: nat, slack: nat, k: nat): int
    requires interval > 0 && k > 0
  {
    DueBy(interval, m0, TickTime(slack, k)) - if k == 1 then 0 else DueBy(interval, m0, TickTime(slack, k - 1))
  }

  /** The publisher started at time `elapsed`, before the first tick, so m0 is elapsed/interval. */
  predicate StartedBefore(interval: nat, m0: nat, slack: nat)
    requires interval > 0
  {
    m0 <= TickTime(slack, 1) / interval
  }

  lemma DivisionMonotone(a: nat, b: nat, d: nat)
    requires d > 0 && a <= b
    ensures a / d <= b / d
  {
    DivisionBounds(a, d);
    DivisionBounds(b, d);
    ProductOrder(a / d, b / d + 1, d);
  }

  lemma DueAtTick(interval: nat, m0: nat, slack: nat, k: nat)
    requires interval > 0 && k > 0 && StartedBefore(interval, m0, slack)
    ensures DueBy(interval, m0, TickTime(slack, k)) == TickTime(slack, k) / interval - m0
  {
    DivisionMonotone(TickTime(slack, 1), TickTime(slack, k), interval);
  }

  lemma DivideExactly(t: nat, c: nat, d: nat)
    requires d > 0
    ensures (t + c * d) / d == t / d + c
  {
    var q, r := t / d, t % d;
    assert t + c * d == (q + c) * d + r;
    Quotient(t + c * d, q + c, r, d);
  }

  lemma Quotient(x: nat, q: nat, r: nat, d: nat)
    requires r < d && x == q * d + r
    ensures x / d == q
  {
    DivisionBounds(x, d);
    ProductOrder(x / d, q + 1, d);
    ProductOrder(q, x / d + 1, d);
  }

  /** When the interval divides one second, every tick after the first counts exactly 1e9/interval, and
      the first counts slack/interval more and m0 fewer. */
  lemma ExactCounts(interval: nat, c: nat, m0: nat, slack: nat, k: nat)
    requires interval > 0 && k > 0 && StartedBefore(interval, m0, slack) && c * interval == SECOND
    ensures TickCount(interval, m0, slack, k) == if k == 1 then c + slack / interval - m0 else c
  {
    DueAtTick(interval, m0, slack, k);
    if k > 1 {
      DueAtTick(interval, m0, slack, k - 1);
      assert TickTime(slack, k) == TickTime(slack, k - 1) + c * interval;
      DivideExactly(TickTime(slack, k - 1), c, interval);
    } else {
      DivideExactly(slack, c, interval);
    }
  }

  /** A whole message rate whose period is a whole number of nanoseconds gets exactly that period. */
  lemma ExactInterval(rate: nat, burst: U32, c: nat)
    requires rate > 0 && rate * Max(1, burst) * c == SECOND
    ensures IntervalNs(rate as real, burst) == c
  {
    var b := Max(1, burst);
    var msgRate := rate as real * b as real;
    PositiveProduct(rate as real, b as real);
    assert msgRate == (rate * b) as real;
    assert msgRate * c as real == (rate * b * c) as real;
    QuotientIs(1000000000.0, msgRate, c as real);
    assert c > 0;
  }

  lemma QuotientIs(a: real, b: real, c: real)
    requires b > 0.0 && b * c == a
    ensures a / b == c
  {
  }

  /** Constant per-second counts, from the second tick on. */
  ghost predicate Steady(interval: nat, m0: nat, slack: nat, c: nat)
    requires interval > 0
  {
    forall k :: k >= 2 ==> TickCount(interval, m0, slack, k) == c
  }

  lemma {:induction false} SteadySum(interval: nat, m0: nat, slack: nat, c: nat, n: nat)
    requires interval > 0 && StartedBefore(interval, m0, slack) && Steady(interval, m0, slack, c)
    ensures DueBy(interval, m0, TickTime(slack, n + 1)) == DueBy(interval, m0, TickTime(slack, 1)) + n * c
  {
    if n > 0 {
      SteadySum(interval, m0, slack, c, n - 1);
      assert TickCount(interval, m0, slack, n + 1) == c;
      assert n * c == (n - 1) * c + c;
    }
  }

  /** Which schedules give the same count every second: exactly those whose interval divides one second,
      whatever the slack and the start time. */
  lemma SteadyIffDivides(interval: nat, m0: nat, slack: nat, c: nat)
    requires interval > 0 && StartedBefore(interval, m0, slack)
    ensures Steady(interval, m0, slack, c) <==> c * interval == SECOND
  {
    if Steady(interval, m0, slack, c) {
      SteadySum(interval, m0, slack, c, interval);
      DueAtTick(interval, m0, slack, interval + 1);
      DueAtTick(interval, m0, slack, 1);
      assert TickTime(slack, interval + 1) == TickTime(slack, 1) + SECOND * interval;
      DivideExactly(TickTime(slack, 1), SECOND, interval);
      assert interval * c == SECOND;
    }
    if c * interval == SECOND {
      forall k | k >= 2 ensures TickCount(interval, m0, slack, k) == c {
        ExactCounts(interval, c, m0, slack, k);
      }
    }
  }
}
