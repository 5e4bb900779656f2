/** The publisher (pub_mode.cpp). */
module Publisher {
  import opened Schedule
  import opened Wire

  /** One turn of the deadline loop, as the outside world plays it: the clock reading at its start, the
      time at which it gets to publish, and the stop flag seen after a sleep. A list of turns ends where
      the loop's own check of the stop flag does. */
  datatype Turn = Turn(now: nat, ready: nat, stop: bool)

  /** Sleeping until a deadline does not end before it, and time does not run backwards. */
  predicate Plausible(turns: seq<Turn>, interval: nat, m0: nat) {
    forall i :: 0 <= i < |turns| ==> Respects(turns[i], Deadline(interval, m0 + i))
  }

  predicate Respects(t: Turn, deadline: nat) {
    t.now <= t.ready && (t.now < deadline ==> deadline <= t.ready)
  }

  /** The turns up to the first one that sees the stop flag after its sleep. */
  function TurnsTaken(turns: seq<Turn>, interval: nat, m: nat): (n: nat)
    ensures n <= |turns|
  {
    if turns == [] || (turns[0].now < Deadline(interval, m) && turns[0].stop) then 0
    else 1 + TurnsTaken(turns[1..], interval, m + 1)
  }

  /** The messages of some turns, numbered from k on and stamped when they went out. */
  function Messages(k: nat, turns: seq<Turn>, baggage: seq<bv8>): seq<Uks> {
    if turns == [] then []
    else
      var n := |turns| - 1;
      Messages(k, turns[..n], baggage) + [Uks(Low64(k + n), turns[n].ready, baggage)]
  }

  class PubMode {
    const baggage: seq<bv8>
    const interval: nat
    var sentSeq: nat
    var sent: nat
    var lastSent: nat
    /** Everything handed to the middleware. */
    ghost var published: seq<Uks>

    /** The k-th message since the start carries sequence number k (modulo 2^64), and at most one message is
        published and not counted yet. */
    ghost predicate Consistent()
      reads this
    {
      && sentSeq == |published| && lastSent <= sent <= sentSeq <= sent + 1
      && forall i :: 0 <= i < |published| ==> published[i].seqNo == Low64(i) && published[i].baggage == baggage
    }

    /** Between two calls of publish_one everything published is counted. */
    ghost predicate Valid()
      reads this
    {
      Consistent() && sent == sentSeq
    }

    constructor (rateHz: real, burst: U32, baggage: seq<bv8>)
      ensures Valid() && published == [] && this.baggage == baggage
      ensures interval == if rateHz > 0.0 then IntervalNs(rateHz, burst) else 0
    {
      this.baggage := baggage;
      interval := if rateHz > 0.0 then IntervalNs(rateHz, burst) else 0;
      sentSeq, sent, lastSent, published := 0, 0, 0, [];
    }

    /** The first part of publish_one: number the message, stamp it and hand it over. */
    method Publish(now: nat)
      requires Valid()
      modifies this`sentSeq, this`published
      ensures Consistent() && sentSeq == sent + 1
      ensures published == old(published) + [Uks(Low64(old(sent)), now, baggage)]
    {
      var msg := Uks(Low64(sentSeq), now, baggage);
      sentSeq := sentSeq + 1;
      published := published + [msg];
    }

    /** The second part: count it. */
    method CountSent()
      requires Consistent() && sentSeq == sent + 1
      modifies this`sent
      ensures Valid() && sent == old(sent) + 1
    {
      sent := sent + 1;
    }

    method PublishOne(now: nat)
      requires Valid()
      modifies this
      ensures Valid() && lastSent == old(lastSent)
      ensures published == old(published) + [Uks(Low64(old(sent)), now, baggage)]
    {
      Publish(now);
      CountSent();
    }

    /** The number of messages counted since the previous tick, which tick reports; a message published and
        not counted yet is left to the next tick. */
    method Tick() returns (delta: nat)
      requires Consistent()
      modifies this`lastSent
      ensures Consistent() && delta == sent - old(lastSent) && lastSent == sent
    {
      delta := sent - lastSent;
      lastSent := sent;
    }

    /** The deadline loop of run, for a publisher started at time now0. */
    method Run(now0: nat, turns: seq<Turn>)
      requires Valid() && interval > 0
      modifies this
      ensures Valid()
      ensures var taken := TurnsTaken(turns, interval, now0 / interval);
        published == old(published) + Messages(old(sent), turns[..taken], baggage)
    {
      Loop(now0 / interval, turns);
    }

    /** One burst of the free-running loop, cut short when the stop flag is set after `room` more checks. */
    method Burst(burst: U32, room: nat, clock: nat -> nat) returns (b: nat)
      requires Valid()
      modifies this
      ensures Valid() && lastSent == old(lastSent) && b == Min(burst, room) && sent == old(sent) + b
      ensures old(published) <= published
      ensures forall k :: |old(published)| <= k < |published| ==> published[k].stamp == clock(k)
    {
      b := 0;
      while b < burst && b < room
        invariant Valid() && lastSent == old(lastSent) && b <= burst && b <= room && sent == old(sent) + b
        invariant old(published) <= published
        invariant forall k :: |old(published)| <= k < |published| ==> published[k].stamp == clock(k)
      {
        PublishOne(clock(sent));
        b := b + 1;
      }
    }

    /** The free-running loop of run: `quiet` checks of the stop flag find it clear, and it stays set after
        that; `clock(k)` is the time at which the k-th message goes out. */
    method RunFlatOut(burst: U32, quiet: nat, clock: nat -> nat)
      requires Valid()
      modifies this
      ensures Valid() && lastSent == old(lastSent)
      ensures sent == old(sent) + FlatOutCount(burst, quiet)
      ensures old(published) <= published
      ensures forall k :: |old(published)| <= k < |published| ==> published[k].stamp == clock(k)
    {
      var checks := 0;
      ghost var rounds := 0;
      FlatOutAt(burst, 0, 0, 0);
      while checks < quiet
        invariant Valid() && lastSent == old(lastSent) && checks <= quiet
        invariant checks < quiet ==> checks == rounds * (burst + 1)
        invariant sent == old(sent) + FlatOutCount(burst, checks)
        invariant old(published) <= published
        invariant forall k :: |old(published)| <= k < |published| ==> published[k].stamp == clock(k)
        decreases quiet - checks
      {
        FlatOutRound(burst, rounds, checks, quiet);
        var b := Burst(burst, quiet - checks - 1, clock);
        checks := checks + 1 + b;
        rounds := rounds + 1;
      }
    }

    method Loop(m0: nat, turns: seq<Turn>)
      requires Valid()
      modifies this
      ensures Valid() && lastSent == old(lastSent)
      ensures published == old(published) + Messages(old(sent), turns[..TurnsTaken(turns, interval, m0)], baggage)
    {
      var msgIndex := m0;
      ghost var k0 := sent;
      var i := 0;
      while i < |turns|
        invariant Valid() && lastSent == old(lastSent) && i <= |turns| && msgIndex == m0 + i && sent == k0 + i
        invariant published == old(published) + Messages(k0, turns[..i], baggage)
        invariant i + TurnsTaken(turns[i..], interval, msgIndex) == TurnsTaken(turns, interval, m0)
      {
        var deadline := Deadline(interval, msgIndex);
        if turns[i].now < deadline {
          if turns[i].stop {
            break;
          }
        }
        TakeOneTurn(turns, interval, msgIndex, i, k0, baggage);
        PublishOne(turns[i].ready);
        msgIndex := msgIndex + 1;
        i := i + 1;
      }
    }
  }

  /** What the free-running loop of run has published after n checks of the stop flag that all found it
      clear: each round checks once before its burst and once before every message of it. */
  function FlatOutCount(burst: U32, n: nat): int {
    n - (n + burst) / (burst + 1)
  }

  /** After q full rounds, p checks in all, and r checks of the next one. */
  lemma FlatOutAt(burst: U32, q: nat, p: nat, r: nat)
    requires p == q * (burst + 1) && r <= burst + 1
    ensures FlatOutCount(burst, p + r) == p + r - q - (if r == 0 then 0 else 1)
  {
    var d := burst + 1;
    if r == 0 {
      Quotient(p + burst, q, burst, d);
    } else {
      assert p + r + burst == (q + 1) * d + (r - 1);
      Quotient(p + r + burst, q + 1, r - 1, d);
    }
  }

  lemma FlatOutRound(burst: U32, rounds: nat, checks: nat, quiet: nat)
    requires checks == rounds * (burst + 1) < quiet
    ensures var b := Min(burst, quiet - checks - 1);
      && FlatOutCount(burst, checks + 1 + b) == FlatOutCount(burst, checks) + b
      && (checks + 1 + b < quiet ==> checks + 1 + b == (rounds + 1) * (burst + 1))
  {
    var b := Min(burst, quiet - checks - 1);
    FlatOutAt(burst, rounds, checks, 0);
    FlatOutAt(burst, rounds, checks, 1 + b);
    NextRound(rounds, burst + 1);
  }

  lemma NextRound(q: nat, d: nat)
    ensures (q + 1) * d == q * d + d
  {
  }

  /** A burst of 0 is the only one that publishes nothing, however long the loop runs. */
  lemma SilentBurst(burst: U32)
    ensures (forall n: nat :: FlatOutCount(burst, n) == 0) <==> burst == 0
  {
    if burst > 0 {
      FlatOutAt(burst, 0, 0, 2);
    } else {
      forall n: nat ensures FlatOutCount(burst, n) == 0 {
        assert burst + 1 == 1;
      }
    }
  }

  /** Any other burst publishes at least every second time the stop flag is checked. */
  lemma FlatOutPublishes(burst: U32, n: nat)
    requires burst > 0
    ensures n - 1 <= 2 * FlatOutCount(burst, n) <= 2 * n
  {
    var d := burst + 1;
    DivisionBounds(n + burst, d);
    HalfOfChecks(n, (n + burst) / d, d);
  }

  lemma HalfOfChecks(n: nat, q: nat, d: nat)
    requires d >= 2 && q * d <= n + d - 1
    ensures 2 * q <= n + 1
  {
    if q > 0 {
      AtLeastTwice(q - 1, d);
      assert (q - 1) * d == q * d - d;
    }
  }

  lemma {:induction false} AtLeastTwice(a: nat, d: nat)
    requires d >= 2
    ensures a * d >= 2 * a
  {
    if a > 0 {
      AtLeastTwice(a - 1, d);
      assert a * d == (a - 1) * d + d;
    }
  }

  lemma TakeOneTurn(turns: seq<Turn>, interval: nat, m: nat, i: nat, k: nat, baggage: seq<bv8>)
    requires i < |turns| && !(turns[i].now < Deadline(interval, m) && turns[i].stop)
    ensures TurnsTaken(turns[i..], interval, m) == 1 + TurnsTaken(turns[i + 1..], interval, m + 1)
    ensures Messages(k, turns[..i + 1], baggage)
         == Messages(k, turns[..i], baggage) + [Uks(Low64(k + i), turns[i].ready, baggage)]
  {
    assert turns[i..][1..] == turns[i + 1..];
    assert turns[..i + 1][..i] == turns[..i];
  }

  lemma {:induction false} MessageAt(k: nat, turns: seq<Turn>, baggage: seq<bv8>, i: nat)
    requires i < |turns|
    ensures |Messages(k, turns, baggage)| == |turns|
    ensures Messages(k, turns, baggage)[i] == Uks(Low64(k + i), turns[i].ready, baggage)
  {
    var n := |turns| - 1;
    if n > 0 {
      MessageAt(k, turns[..n], baggage, if i < n then i else 0);
    } else {
      assert Messages(k, turns[..n], baggage) == [];
    }
  }

  /** No message goes out before its deadline, and there is no burst at start-up: the first deadline lies
      in the future. */
  lemma NothingEarly(now0: nat, interval: nat, turns: seq<Turn>, k: nat, baggage: seq<bv8>, i: nat)
    requires interval > 0 && Plausible(turns, interval, now0 / interval)
    requires i < TurnsTaken(turns, interval, now0 / interval)
    ensures var out := Messages(k, turns[..TurnsTaken(turns, interval, now0 / interval)], baggage);
      i < |out| && now0 < Deadline(interval, now0 / interval + i) <= out[i].stamp
  {
    FirstDeadlineAhead(now0, interval, i);
    StampedAfter(turns, interval, now0 / interval, TurnsTaken(turns, interval, now0 / interval), k, baggage, i);
  }

  lemma StampedAfter(turns: seq<Turn>, interval: nat, m0: nat, taken: nat, k: nat, baggage: seq<bv8>, i: nat)
    requires Plausible(turns, interval, m0) && i < taken <= |turns|
    ensures var out := Messages(k, turns[..taken], baggage); i < |out| && Deadline(interval, m0 + i) <= out[i].stamp
  {
    MessageAt(k, turns[..taken], baggage, i);
    assert Respects(turns[i], Deadline(interval, m0 + i));
  }

  lemma FirstDeadlineAhead(now0: nat, interval: nat, i: nat)
    requires interval > 0
    ensures now0 < Deadline(interval, now0 / interval + i)
  {
    DivisionBounds(now0, interval);
    ProductOrder(now0 / interval + 1, now0 / interval + i + 1, interval);
  }

  /** Ideal sleeps: no turn starts late, and a sleep ends exactly at its deadline. */
  predicate Ideal(turns: seq<Turn>, interval: nat, m0: nat) {
    forall i :: 0 <= i < |turns| ==>
      turns[i].now <= Deadline(interval, m0 + i) == turns[i].ready
  }

  /** With ideal sleeps the messages that have gone out by time t are exactly the first DueBy ones. */
  lemma IdealCount(interval: nat, m0: nat, turns: seq<Turn>, k: nat, baggage: seq<bv8>, t: nat, i: nat)
    requires interval > 0 && Ideal(turns, interval, m0) && i < |turns|
    ensures |Messages(k, turns, baggage)| == |turns|
    ensures Messages(k, turns, baggage)[i].stamp <= t <==> i < DueBy(interval, m0, t)
  {
    MessageAt(k, turns, baggage, i);
    IdealStamp(interval, m0, turns, i);
    DueByIsCount(interval, m0, t, i);
  }

  lemma IdealStamp(interval: nat, m0: nat, turns: seq<Turn>, i: nat)
    requires Ideal(turns, interval, m0) && i < |turns|
    ensures turns[i].ready == Deadline(interval, m0 + i)
  {
  }
}
