/** What the publisher's ticks report: its thread and the main loop's ticks, interleaved. */
module PubReports {
  import opened Publisher
  import opened Schedule
  import opened Wire

  /** The publisher's thread hands a message over and then counts it; main ticks at any moment. */
  datatype Moment = Out(at: nat) | Counted(at: nat) | Report(at: nat)

  function Outs(trace: seq<Moment>): nat {
    if trace == [] then 0 else Outs(trace[..|trace| - 1]) + if trace[|trace| - 1].Out? then 1 else 0
  }

  function Counts(trace: seq<Moment>): nat {
    if trace == [] then 0 else Counts(trace[..|trace| - 1]) + if trace[|trace| - 1].Counted? then 1 else 0
  }

  function Reports(trace: seq<Moment>): nat {
    if trace == [] then 0 else Reports(trace[..|trace| - 1]) + if trace[|trace| - 1].Report? then 1 else 0
  }

  /** The messages counted since the last tick. */
  function CountsSince(trace: seq<Moment>): nat {
    if trace == [] || trace[|trace| - 1].Report? then 0
    else CountsSince(trace[..|trace| - 1]) + if trace[|trace| - 1].Counted? then 1 else 0
  }

  /** What the ticks report, one count each. */
  function Deltas(trace: seq<Moment>): seq<nat> {
    if trace == [] then []
    else
      var n := |trace| - 1;
      Deltas(trace[..n]) + if trace[n].Report? then [CountsSince(trace[..n])] else []
  }

  /** When the messages of a trace went out. */
  function OutTimes(trace: seq<Moment>): (r: seq<nat>)
    ensures |r| == Outs(trace)
  {
    if trace == [] then []
    else
      var n := |trace| - 1;
      OutTimes(trace[..n]) + if trace[n].Out? then [trace[n].at] else []
  }

  /** Messages numbered from k on that went out at the given times. */
  function Stamped(k: nat, times: seq<nat>, baggage: seq<bv8>): seq<Uks> {
    seq(|times|, i requires 0 <= i < |times| => Uks(Low64(k + i), times[i], baggage))
  }

  lemma Append(trace: seq<Moment>, e: Moment)
    ensures (trace + [e])[..|trace|] == trace
    ensures Outs(trace + [e]) == Outs(trace) + if e.Out? then 1 else 0
    ensures Counts(trace + [e]) == Counts(trace) + if e.Counted? then 1 else 0
    ensures Reports(trace + [e]) == Reports(trace) + if e.Report? then 1 else 0
    ensures CountsSince(trace + [e]) == if e.Report? then 0 else CountsSince(trace) + if e.Counted? then 1 else 0
    ensures Deltas(trace + [e]) == Deltas(trace) + if e.Report? then [CountsSince(trace)] else []
    ensures OutTimes(trace + [e]) == OutTimes(trace) + if e.Out? then [e.at] else []
  {
    assert (trace + [e])[..|trace|] == trace;
  }

  function Sum(xs: seq<nat>): nat {
    if xs == [] then 0 else Sum(xs[..|xs| - 1]) + xs[|xs| - 1]
  }

  lemma SumAppend(xs: seq<nat>, x: nat)
    ensures Sum(xs + [x]) == Sum(xs) + x
  {
    assert (xs + [x])[..|xs|] == xs;
  }

  /** The publisher is one thread: it counts each message before it hands over the next. */
  predicate Paced(trace: seq<Moment>) {
    forall i :: 0 <= i < |trace| ==> InTurn(trace[..i], trace[i])
  }

  predicate InTurn(before: seq<Moment>, e: Moment) {
    && (e.Out? ==> Outs(before) == Counts(before))
    && (e.Counted? ==> Outs(before) == Counts(before) + 1)
  }

  lemma {:induction false} PacedCounts(trace: seq<Moment>)
    requires Paced(trace)
    ensures Counts(trace) <= Outs(trace) <= Counts(trace) + 1
  {
    if trace != [] {
      var n := |trace| - 1;
      assert Paced(trace[..n]) by {
        forall i | 0 <= i < n ensures InTurn(trace[..n][..i], trace[..n][i]) {
          assert trace[..n][..i] == trace[..i];
        }
      }
      PacedCounts(trace[..n]);
      assert InTurn(trace[..n], trace[n]);
    }
  }

  lemma {:induction false} ReportsAddToCounts(trace: seq<Moment>)
    ensures Sum(Deltas(trace)) + CountsSince(trace) == Counts(trace)
    ensures |Deltas(trace)| == Reports(trace)
  {
    if trace != [] {
      var n := |trace| - 1;
      ReportsAddToCounts(trace[..n]);
      if trace[n].Report? {
        SumAppend(Deltas(trace[..n]), CountsSince(trace[..n]));
      } else {
        assert Deltas(trace) == Deltas(trace[..n]);
      }
    }
  }

  /** Whatever the interleaving, no message is reported twice or dropped: the reports and what was counted
      after the last of them add up to the messages counted, which are those handed over or one fewer. */
  lemma {:induction false} NothingDropped(trace: seq<Moment>)
    ensures Sum(Deltas(trace)) + CountsSince(trace) == Counts(trace)
    ensures |Deltas(trace)| == Reports(trace)
    ensures Paced(trace) ==> Counts(trace) <= Outs(trace) <= Counts(trace) + 1
  {
    ReportsAddToCounts(trace);
    if Paced(trace) {
      PacedCounts(trace);
    }
  }

  // ---------------------------------------------------------------- the publisher driven by a trace

  lemma StampedAppend(k: nat, times: seq<nat>, at: nat, baggage: seq<bv8>)
    ensures Stamped(k, times + [at], baggage) == Stamped(k, times, baggage) + [Uks(Low64(k + |times|), at, baggage)]
  {
  }

  method PlayOne(p: PubMode, e: Moment) returns (deltas: seq<nat>)
    requires p.Consistent()
    requires (e.Out? ==> p.Valid()) && (e.Counted? ==> p.sentSeq == p.sent + 1)
    modifies p
    ensures p.Consistent()
    ensures p.sentSeq == old(p.sentSeq) + if e.Out? then 1 else 0
    ensures p.sent == old(p.sent) + if e.Counted? then 1 else 0
    ensures p.published == old(p.published) + if e.Out? then [Uks(Low64(old(p.sentSeq)), e.at, p.baggage)] else []
    ensures p.lastSent == if e.Report? then old(p.sent) else old(p.lastSent)
    ensures deltas == if e.Report? then [old(p.sent - p.lastSent)] else []
  {
    deltas := [];
    match e
    case Out(at) =>
      p.Publish(at);
    case Counted(_) =>
      p.CountSent();
    case Report(_) =>
      var delta := p.Tick();
      deltas := [delta];
  }

  /** Where the publisher stands after part of a trace: k messages had gone out before it, and `more` and
      `deltas` are what was published and reported during it. */
  ghost predicate Plays(trace: seq<Moment>, k: nat, sentSeq: nat, sent: nat, lastSent: nat, more: seq<Uks>,
                        deltas: seq<nat>, baggage: seq<bv8>) {
    && sentSeq == k + Outs(trace) && sent == k + Counts(trace) && lastSent + CountsSince(trace) == sent
    && more == Stamped(k, OutTimes(trace), baggage)
    && deltas == Deltas(trace)
  }

  lemma {:induction false} PlaysStep(trace: seq<Moment>, k: nat, sentSeq: nat, sent: nat, lastSent: nat,
                                     more: seq<Uks>, deltas: seq<nat>, baggage: seq<bv8>, e: Moment)
    requires Plays(trace, k, sentSeq, sent, lastSent, more, deltas, baggage)
    ensures sent >= lastSent
    ensures e.Out? ==>
      Plays(trace + [e], k, sentSeq + 1, sent, lastSent, more + [Uks(Low64(sentSeq), e.at, baggage)], deltas, baggage)
    ensures e.Counted? ==> Plays(trace + [e], k, sentSeq, sent + 1, lastSent, more, deltas, baggage)
    ensures e.Report? ==> Plays(trace + [e], k, sentSeq, sent, sent, more, deltas + [sent - lastSent], baggage)
  {
    Append(trace, e);
    StampedAppend(k, OutTimes(trace), e.at, baggage);
  }

  method PlayNext(p: PubMode, ghost before: seq<Moment>, e: Moment, ghost k: nat, ghost more: seq<Uks>,
                  deltas: seq<nat>)
    returns (deltas': seq<nat>, ghost more': seq<Uks>)
    requires p.Consistent() && InTurn(before, e)
    requires Plays(before, k, p.sentSeq, p.sent, p.lastSent, more, deltas, p.baggage)
    modifies p
    ensures p.Consistent()
    ensures Plays(before + [e], k, p.sentSeq, p.sent, p.lastSent, more', deltas', p.baggage)
    ensures more <= more' && p.published == old(p.published) + more'[|more|..]
  {
    PlaysStep(before, k, p.sentSeq, p.sent, p.lastSent, more, deltas, p.baggage, e);
    more' := more + if e.Out? then [Uks(Low64(p.sentSeq), e.at, p.baggage)] else [];
    var delta := PlayOne(p, e);
    deltas' := deltas + delta;
  }

  /** The publisher's thread and the ticks, in the order of the trace. */
  method Play(p: PubMode, trace: seq<Moment>) returns (deltas: seq<nat>)
    requires p.Valid() && p.lastSent == p.sent && Paced(trace)
    modifies p
    ensures p.Consistent() && p.sent == old(p.sent) + Counts(trace)
    ensures deltas == Deltas(trace)
    ensures p.published == old(p.published) + Stamped(old(p.sent), OutTimes(trace), p.baggage)
  {
    deltas := [];
    ghost var more: seq<Uks> := [];
    for i := 0 to |trace|
      invariant p.Consistent() && p.published == old(p.published) + more
      invariant Plays(trace[..i], old(p.sent), p.sentSeq, p.sent, p.lastSent, more, deltas, p.baggage)
    {
      assert trace[..i + 1] == trace[..i] + [trace[i]];
      assert InTurn(trace[..i], trace[i]);
      deltas, more := PlayNext(p, trace[..i], trace[i], old(p.sent), more, deltas);
    }
    assert trace[..|trace|] == trace;
  }

  // ---------------------------------------------------------------- timing

  /** When the messages of a publisher with the given interval and first message number are due. */
  function DueTimes(interval: nat, m0: nat): nat -> nat {
    i => Deadline(interval, m0 + i)
  }

  /** By how much a message may be counted, and a tick may come, after it is due. */
  datatype Lateness = Lateness(message: nat, tick: nat)

  const PUNCTUAL := Lateness(0, 0)

  /** e may follow: nothing happens before it is due or later than allowed, and a message counted at the last
      allowed instant is counted before a tick at that instant. */
  predicate TimelyMoment(before: seq<Moment>, e: Moment, due: nat -> nat, slack: nat, late: Lateness) {
    && InTurn(before, e)
    && match e
       case Out(at) => due(Outs(before)) <= at <= due(Outs(before)) + late.message
       case Counted(at) => due(Counts(before)) <= at <= due(Counts(before)) + late.message
       case Report(at) =>
         && TickTime(slack, Reports(before) + 1) <= at <= TickTime(slack, Reports(before) + 1) + late.tick
         && at < due(Counts(before)) + late.message
  }

  /** Time does not run backwards, and everything happens in time. */
  predicate TimelyJoint(trace: seq<Moment>, due: nat -> nat, slack: nat, late: Lateness) {
    && (forall i, j :: 0 <= i < j < |trace| ==> trace[i].at <= trace[j].at)
    && forall i :: 0 <= i < |trace| ==> TimelyMoment(trace[..i], trace[i], due, slack, late)
  }

  /** Everything happens exactly when it is due. */
  predicate IdealJoint(trace: seq<Moment>, due: nat -> nat, slack: nat) {
    TimelyJoint(trace, due, slack, PUNCTUAL)
  }

  lemma TimelyPrefix(trace: seq<Moment>, due: nat -> nat, slack: nat, late: Lateness, n: nat)
    requires TimelyJoint(trace, due, slack, late) && n <= |trace|
    ensures TimelyJoint(trace[..n], due, slack, late)
  {
    forall i | 0 <= i < n ensures TimelyMoment(trace[..n][..i], trace[..n][i], due, slack, late) {
      assert trace[..n][..i] == trace[..i];
    }
  }

  lemma TimelyIsPaced(trace: seq<Moment>, due: nat -> nat, slack: nat, late: Lateness)
    requires TimelyJoint(trace, due, slack, late)
    ensures Paced(trace)
  {
    forall i | 0 <= i < |trace| ensures InTurn(trace[..i], trace[i]) {
      assert TimelyMoment(trace[..i], trace[i], due, slack, late);
    }
  }

  lemma {:induction false} OutTimesIdeal(trace: seq<Moment>, due: nat -> nat, slack: nat, i: nat)
    requires IdealJoint(trace, due, slack) && i < Outs(trace)
    ensures OutTimes(trace)[i] == due(i)
  {
    var n := |trace| - 1;
    TimelyPrefix(trace, due, slack, PUNCTUAL, n);
    if i < Outs(trace[..n]) {
      OutTimesIdeal(trace[..n], due, slack, i);
    } else {
      assert TimelyMoment(trace[..n], trace[n], due, slack, PUNCTUAL);
    }
  }

  lemma {:induction false} StampedTurns(k: nat, turns: seq<Turn>, times: seq<nat>, baggage: seq<bv8>)
    requires |turns| == |times| && forall i :: 0 <= i < |turns| ==> turns[i].ready == times[i]
    ensures Messages(k, turns, baggage) == Stamped(k, times, baggage)
  {
    if turns != [] {
      var n := |turns| - 1;
      StampedTurns(k, turns[..n], times[..n], baggage);
      StampedAppend(k, times[..n], times[n], baggage);
      assert times == times[..n] + [times[n]];
    }
  }

  /** The deadline loop publishes just these messages: with ideal sleeps its turns and the trace agree. */
  lemma {:induction false} LoopPublishes(trace: seq<Moment>, interval: nat, m0: nat, slack: nat,
                                         turns: seq<Turn>, k: nat, baggage: seq<bv8>)
    requires IdealJoint(trace, DueTimes(interval, m0), slack)
    requires Ideal(turns, interval, m0) && |turns| == Outs(trace)
    ensures Messages(k, turns, baggage) == Stamped(k, OutTimes(trace), baggage)
  {
    forall i | 0 <= i < |turns| ensures turns[i].ready == OutTimes(trace)[i] {
      OutTimesIdeal(trace, DueTimes(interval, m0), slack, i);
      IdealStamp(interval, m0, turns, i);
    }
    StampedTurns(k, turns, OutTimes(trace), baggage);
  }

  lemma {:induction false} LastCounted(trace: seq<Moment>) returns (i: nat)
    requires Counts(trace) > 0
    ensures i < |trace| && trace[i].Counted? && Counts(trace[..i]) == Counts(trace) - 1
  {
    var n := |trace| - 1;
    if trace[n].Counted? {
      i := n;
    } else {
      i := LastCounted(trace[..n]);
      assert trace[..n][..i] == trace[..i];
    }
  }

  lemma {:induction false} LastCountedDue(trace: seq<Moment>, due: nat -> nat, slack: nat, late: Lateness, n: nat)
    requires TimelyJoint(trace, due, slack, late) && n < |trace| && Counts(trace[..n]) > 0
    ensures due(Counts(trace[..n]) - 1) <= trace[n].at
  {
    var i := LastCounted(trace[..n]);
    assert trace[..n][..i] == trace[..i];
    assert TimelyMoment(trace[..i], trace[i], due, slack, late);
  }

  /** The allowed lateness does not reach from the last deadline before t to t, nor from t to the next one. */
  predicate Tolerates(interval: nat, t: nat, late: Lateness)
    requires interval > 0
  {
    late.message <= t % interval && late.tick < interval - t % interval
  }

  lemma QuotientAtMost(q: nat, m: nat, d: nat, base: nat)
    requires d > 0 && base == q * d && base < Deadline(d, m)
    ensures q <= m
  {
    ProductOrder(q, m + 1, d);
  }

  lemma QuotientAtLeast(q: nat, m: nat, d: nat, base: nat)
    requires d > 0 && base == q * d && Deadline(d, m) < base + d
    ensures m + 1 <= q
  {
    ProductOrder(m + 1, q + 1, d);
    assert (q + 1) * d == base + d;
  }

  lemma QuotientOf(t: nat, d: nat) returns (q: nat, base: nat)
    requires d > 0
    ensures q == t / d && base == q * d && t == base + t % d
  {
    q := t / d;
    base := q * d;
  }

  lemma CountDue(interval: nat, m0: nat, t: nat, at: nat, count: nat, late: Lateness)
    requires interval > 0 && Tolerates(interval, t, late) && t <= at <= t + late.tick
    requires at < Deadline(interval, m0 + count) + late.message
    requires count > 0 ==> Deadline(interval, m0 + (count - 1)) <= at
    ensures count == DueBy(interval, m0, t)
  {
    var q, base := QuotientOf(t, interval);
    QuotientAtMost(q, m0 + count, interval, base);
    if count > 0 {
      QuotientAtLeast(q, m0 + (count - 1), interval, base);
    }
  }

  /** At a tick, exactly the messages due when it was due are counted. */
  lemma {:induction false} CountsAtReport(trace: seq<Moment>, interval: nat, m0: nat, slack: nat, late: Lateness,
                                          n: nat)
    requires interval > 0 && TimelyJoint(trace, DueTimes(interval, m0), slack, late)
    requires n < |trace| && trace[n].Report?
    requires Tolerates(interval, TickTime(slack, Reports(trace[..n]) + 1), late)
    ensures Counts(trace[..n]) == DueBy(interval, m0, TickTime(slack, Reports(trace[..n]) + 1))
  {
    assert TimelyMoment(trace[..n], trace[n], DueTimes(interval, m0), slack, late);
    if Counts(trace[..n]) > 0 {
      LastCountedDue(trace, DueTimes(interval, m0), slack, late, n);
    }
    CountDue(interval, m0, TickTime(slack, Reports(trace[..n]) + 1), trace[n].at, Counts(trace[..n]), late);
  }

  /** How many messages are due by the k-th tick. */
  function DueAtTicks(interval: nat, m0: nat, slack: nat): nat -> int
    requires interval > 0
  {
    (k: nat) => DueBy(interval, m0, TickTime(slack, k))
  }

  /** Each count is what became due since the tick before, and `reported` is what was due by the last one. */
  predicate OnSchedule(deltas: seq<nat>, reported: int, due: nat -> int) {
    && (forall k :: 0 <= k < |deltas| ==> deltas[k] == due(k + 1) - if k == 0 then 0 else due(k))
    && reported == if deltas == [] then 0 else due(|deltas|)
  }

  lemma NextOnSchedule(deltas: seq<nat>, reported: int, delta: nat, due: nat -> int)
    requires OnSchedule(deltas, reported, due) && reported + delta == due(|deltas| + 1)
    ensures OnSchedule(deltas + [delta], reported + delta, due)
  {
  }

  lemma {:induction false} KeepsOne(before: seq<Moment>, e: Moment, due: nat -> int)
    requires OnSchedule(Deltas(before), Counts(before) - CountsSince(before), due)
    requires e.Report? ==> Counts(before) == due(Reports(before) + 1)
    ensures OnSchedule(Deltas(before + [e]), Counts(before + [e]) - CountsSince(before + [e]), due)
  {
    Append(before, e);
    if e.Report? {
      NothingDropped(before);
      NextOnSchedule(Deltas(before), Counts(before) - CountsSince(before), CountsSince(before), due);
    } else {
      assert Deltas(before) + [] == Deltas(before);
    }
  }

  /** The lateness is tolerated at each of the first n ticks. */
  predicate Tolerated(interval: nat, slack: nat, late: Lateness, n: nat)
    requires interval > 0
  {
    forall k :: 1 <= k <= n ==> Tolerates(interval, TickTime(slack, k), late)
  }

  /** Every tick finds counted exactly what is due by it. */
  predicate CountsAreDue(trace: seq<Moment>, due: nat -> int) {
    forall n :: 0 <= n < |trace| && trace[n].Report? ==> Counts(trace[..n]) == due(Reports(trace[..n]) + 1)
  }

  lemma {:induction false} ReportsGrow(trace: seq<Moment>, n: nat)
    requires n < |trace| && trace[n].Report?
    ensures Reports(trace[..n]) + 1 <= Reports(trace)
  {
    var m := |trace| - 1;
    if n < m {
      assert trace[..m][..n] == trace[..n];
      ReportsGrow(trace[..m], n);
    }
  }

  lemma {:induction false} TimelyCountAt(trace: seq<Moment>, interval: nat, m0: nat, slack: nat, late: Lateness,
                                         n: nat)
    requires interval > 0 && TimelyJoint(trace, DueTimes(interval, m0), slack, late)
    requires Tolerated(interval, slack, late, Reports(trace)) && n < |trace| && trace[n].Report?
    ensures Counts(trace[..n]) == DueBy(interval, m0, TickTime(slack, Reports(trace[..n]) + 1))
  {
    ReportsGrow(trace, n);
    CountsAtReport(trace, interval, m0, slack, late, n);
  }

  lemma {:induction false} TimelyCounts(trace: seq<Moment>, interval: nat, m0: nat, slack: nat, late: Lateness)
    requires interval > 0 && TimelyJoint(trace, DueTimes(interval, m0), slack, late)
    requires Tolerated(interval, slack, late, Reports(trace))
    ensures CountsAreDue(trace, DueAtTicks(interval, m0, slack))
  {
    forall n | 0 <= n < |trace| && trace[n].Report?
      ensures Counts(trace[..n]) == DueAtTicks(interval, m0, slack)(Reports(trace[..n]) + 1)
    {
      TimelyCountAt(trace, interval, m0, slack, late, n);
    }
  }

  lemma {:induction false} CountsAreDueBefore(before: seq<Moment>, e: Moment, due: nat -> int)
    requires CountsAreDue(before + [e], due)
    ensures CountsAreDue(before, due) && (e.Report? ==> Counts(before) == due(Reports(before) + 1))
  {
    var trace := before + [e];
    assert trace[..|before|] == before && trace[|before|] == e;
    forall m | 0 <= m < |before| && before[m].Report? ensures Counts(before[..m]) == due(Reports(before[..m]) + 1) {
      assert before[..m] == trace[..m] && trace[m] == before[m];
    }
  }

  lemma {:induction false} KeepsSchedule(trace: seq<Moment>, due: nat -> int)
    requires CountsAreDue(trace, due)
    ensures OnSchedule(Deltas(trace), Counts(trace) - CountsSince(trace), due)
  {
    if trace != [] {
      var n := |trace| - 1;
      var before, e := trace[..n], trace[n];
      assert trace == before + [e];
      CountsAreDueBefore(before, e, due);
      KeepsSchedule(before, due);
      KeepsOne(before, e, due);
    }
  }

  lemma TicksScheduled(deltas: seq<nat>, reported: int, interval: nat, m0: nat, slack: nat)
    requires interval > 0 && OnSchedule(deltas, reported, DueAtTicks(interval, m0, slack))
    ensures forall k :: 0 <= k < |deltas| ==> deltas[k] == TickCount(interval, m0, slack, k + 1)
    ensures deltas != [] ==> reported == DueBy(interval, m0, TickTime(slack, |deltas|))
  {
    var due := DueAtTicks(interval, m0, slack);
    forall k | 0 <= k < |deltas| ensures deltas[k] == TickCount(interval, m0, slack, k + 1) {
      assert deltas[k] == due(k + 1) - if k == 0 then 0 else due(k);
    }
  }

  /** What the schedule says is what the ticks report, as long as the lateness is tolerated at each tick: the
      k-th report is TickCount, and all messages due by the last tick have been reported. */
  lemma {:induction false} TimelyReports(trace: seq<Moment>, interval: nat, m0: nat, slack: nat, late: Lateness)
    requires interval > 0 && TimelyJoint(trace, DueTimes(interval, m0), slack, late)
    requires Tolerated(interval, slack, late, Reports(trace))
    ensures |Deltas(trace)| == Reports(trace)
    ensures forall k :: 0 <= k < |Deltas(trace)| ==> Deltas(trace)[k] == TickCount(interval, m0, slack, k + 1)
    ensures Reports(trace) > 0 ==> Sum(Deltas(trace)) == DueBy(interval, m0, TickTime(slack, Reports(trace)))
  {
    TimelyCounts(trace, interval, m0, slack, late);
    KeepsSchedule(trace, DueAtTicks(interval, m0, slack));
    NothingDropped(trace);
    TicksScheduled(Deltas(trace), Counts(trace) - CountsSince(trace), interval, m0, slack);
  }

  /** Exact timing is always tolerated. */
  lemma PunctualTolerated(interval: nat, slack: nat, n: nat)
    requires interval > 0
    ensures Tolerated(interval, slack, PUNCTUAL, n)
  {
  }

  lemma {:induction false} IdealReports(trace: seq<Moment>, interval: nat, m0: nat, slack: nat)
    requires interval > 0 && IdealJoint(trace, DueTimes(interval, m0), slack)
    ensures |Deltas(trace)| == Reports(trace)
    ensures forall k :: 0 <= k < |Deltas(trace)| ==> Deltas(trace)[k] == TickCount(interval, m0, slack, k + 1)
    ensures Reports(trace) > 0 ==> Sum(Deltas(trace)) == DueBy(interval, m0, TickTime(slack, Reports(trace)))
  {
    PunctualTolerated(interval, slack, Reports(trace));
    TimelyReports(trace, interval, m0, slack, PUNCTUAL);
  }

  // ---------------------------------------------------------------- timely traces exist

  predicate NoneAfter(trace: seq<Moment>, t: nat) {
    forall i :: 0 <= i < |trace| ==> trace[i].at <= t
  }

  /** Each message is due later than the one before. */
  ghost predicate Ascending(due: nat -> nat) {
    forall m: nat :: due(m) < due(m + 1)
  }

  /** The trace can be continued: everything published is counted, and nothing happened after `bound` or after
      the next deadline. */
  predicate Ongoing(trace: seq<Moment>, due: nat -> nat, slack: nat, late: Lateness, bound: nat) {
    && TimelyJoint(trace, due, slack, late) && Outs(trace) == Counts(trace)
    && NoneAfter(trace, due(Outs(trace))) && NoneAfter(trace, bound)
  }

  lemma {:induction false} TimelyAppend(trace: seq<Moment>, e: Moment, due: nat -> nat, slack: nat, late: Lateness)
    requires TimelyJoint(trace, due, slack, late) && TimelyMoment(trace, e, due, slack, late)
    requires NoneAfter(trace, e.at)
    ensures TimelyJoint(trace + [e], due, slack, late) && NoneAfter(trace + [e], e.at)
  {
    var trace' := trace + [e];
    forall i | 0 <= i < |trace'| ensures TimelyMoment(trace'[..i], trace'[i], due, slack, late) {
      assert trace'[..i] == trace[..i];
      assert i == |trace| ==> trace[..i] == trace;
    }
  }

  lemma NoneAfterLater(trace: seq<Moment>, t: nat, t': nat)
    requires NoneAfter(trace, t) && t <= t'
    ensures NoneAfter(trace, t')
  {
  }

  /** A message handed over and counted at once. */
  function AtOnce(at: nat): seq<Moment> { [Out(at), Counted(at)] }

  lemma AtOnceCounts(trace: seq<Moment>, at: nat)
    ensures var trace' := trace + AtOnce(at);
      && Outs(trace') == Outs(trace) + 1 && Counts(trace') == Counts(trace) + 1
      && Reports(trace') == Reports(trace) && Deltas(trace') == Deltas(trace)
      && CountsSince(trace') == CountsSince(trace) + 1
  {
    Append(trace, Out(at));
    Append(trace + [Out(at)], Counted(at));
    assert trace + AtOnce(at) == trace + [Out(at)] + [Counted(at)];
  }

  lemma {:induction false} AtOnceTimely(trace: seq<Moment>, at: nat, due: nat -> nat, slack: nat, late: Lateness)
    requires TimelyJoint(trace, due, slack, late) && Outs(trace) == Counts(trace)
    requires at == due(Outs(trace)) && NoneAfter(trace, at)
    ensures TimelyJoint(trace + AtOnce(at), due, slack, late) && NoneAfter(trace + AtOnce(at), at)
  {
    TimelyAppend(trace, Out(at), due, slack, late);
    Append(trace, Out(at));
    TimelyAppend(trace + [Out(at)], Counted(at), due, slack, late);
    assert trace + AtOnce(at) == trace + [Out(at)] + [Counted(at)];
  }

  lemma LaterDue(due: nat -> nat, m: nat, m': nat)
    requires Ascending(due) && m' == m + 1
    ensures due(m) < due(m')
  {
  }

  lemma OngoingFrom(trace: seq<Moment>, at: nat, due: nat -> nat, slack: nat, late: Lateness, bound: nat)
    requires TimelyJoint(trace, due, slack, late) && Outs(trace) == Counts(trace) && NoneAfter(trace, at)
    requires at <= bound && at <= due(Outs(trace))
    ensures Ongoing(trace, due, slack, late, bound)
  {
    NoneAfterLater(trace, at, due(Outs(trace)));
    NoneAfterLater(trace, at, bound);
  }

  /** Hand over and count the next message exactly when it is due. */
  lemma {:induction false} OneMessage(trace: seq<Moment>, due: nat -> nat, slack: nat, late: Lateness, bound: nat)
    returns (trace': seq<Moment>)
    requires Ongoing(trace, due, slack, late, bound) && Ascending(due) && due(Outs(trace)) <= bound
    ensures trace' == trace + AtOnce(due(Outs(trace))) && Ongoing(trace', due, slack, late, bound)
  {
    var at := due(Outs(trace));
    trace' := trace + AtOnce(at);
    AtOnceTimely(trace, at, due, slack, late);
    AtOnceCounts(trace, at);
    LaterDue(due, Outs(trace), Outs(trace'));
    OngoingFrom(trace', at, due, slack, late, bound);
  }

  /** What filling a trace up to `bound` changes. */
  predicate Filled(trace: seq<Moment>, trace': seq<Moment>, due: nat -> nat, bound: nat) {
    bound < due(Outs(trace')) && Reports(trace') == Reports(trace) && Deltas(trace') == Deltas(trace)
  }

  lemma FilledMore(trace: seq<Moment>, at: nat, trace': seq<Moment>, due: nat -> nat, bound: nat)
    requires at == due(Outs(trace)) <= bound && Filled(trace + AtOnce(at), trace', due, bound)
    ensures Filled(trace, trace', due, bound)
  {
    AtOnceCounts(trace, at);
  }

  /** Publish what is due by `bound`. */
  lemma {:induction false} FillTo(trace: seq<Moment>, due: nat -> nat, slack: nat, late: Lateness, bound: nat)
    returns (trace': seq<Moment>)
    requires Ongoing(trace, due, slack, late, bound) && Ascending(due)
    ensures Ongoing(trace', due, slack, late, bound) && Filled(trace, trace', due, bound)
    decreases bound - due(Outs(trace))
  {
    trace' := trace;
    var at := due(Outs(trace));
    if at <= bound {
      trace' := OneMessage(trace, due, slack, late, bound);
      AtOnceCounts(trace, at);
      LaterDue(due, Outs(trace), Outs(trace'));
      trace' := FillTo(trace', due, slack, late, bound);
      FilledMore(trace, at, trace', due, bound);
    }
  }

  /** Publish what is due by the next tick, and tick. */
  lemma {:induction false} ToNextTick(trace: seq<Moment>, due: nat -> nat, slack: nat) returns (trace': seq<Moment>)
    requires Ongoing(trace, due, slack, PUNCTUAL, TickTime(slack, Reports(trace) + 1)) && Ascending(due)
    ensures Reports(trace') == Reports(trace) + 1
    ensures Ongoing(trace', due, slack, PUNCTUAL, TickTime(slack, Reports(trace')))
  {
    var tick := TickTime(slack, Reports(trace) + 1);
    trace' := FillTo(trace, due, slack, PUNCTUAL, tick);
    TimelyAppend(trace', Report(tick), due, slack, PUNCTUAL);
    Append(trace', Report(tick));
    NoneAfterLater(trace' + [Report(tick)], tick, due(Outs(trace')));
    trace' := trace' + [Report(tick)];
  }

  /** Whatever the schedule, any number of ticks can come and everything happen when it is due. */
  lemma {:induction false} IdealJointExists(due: nat -> nat, slack: nat, k: nat) returns (trace: seq<Moment>)
    requires Ascending(due)
    ensures IdealJoint(trace, due, slack) && Reports(trace) == k
    ensures Ongoing(trace, due, slack, PUNCTUAL, TickTime(slack, k))
  {
    if k == 0 {
      trace := [];
    } else {
      trace := IdealJointExists(due, slack, k - 1);
      NoneAfterLater(trace, TickTime(slack, k - 1), TickTime(slack, k));
      trace := ToNextTick(trace, due, slack);
    }
  }

  lemma NextDeadline(interval: nat, m: nat)
    ensures Deadline(interval, m + 1) == Deadline(interval, m) + interval
  {
  }

  lemma DueTimesAscend(interval: nat, m0: nat)
    requires interval > 0
    ensures Ascending(DueTimes(interval, m0))
  {
    forall m: nat ensures DueTimes(interval, m0)(m) < DueTimes(interval, m0)(m + 1) {
      NextDeadline(interval, m0 + m);
      assert m0 + (m + 1) == (m0 + m) + 1;
    }
  }

  // ---------------------------------------------------------------- what is reported

  /** No drift: however many ticks there were, their counts add up to the messages due by the last of them,
      which is the ideal number t/interval, rounded down, less the m0 that were due before the start. */
  lemma ReportsAddUp(trace: seq<Moment>, interval: nat, m0: nat, slack: nat)
    requires interval > 0 && IdealJoint(trace, DueTimes(interval, m0), slack)
    requires StartedBefore(interval, m0, slack) && Reports(trace) > 0
    ensures Sum(Deltas(trace)) == DueBy(interval, m0, TickTime(slack, Reports(trace)))
    ensures Sum(Deltas(trace)) + m0 == TickTime(slack, Reports(trace)) / interval
  {
    IdealReports(trace, interval, m0, slack);
    DueAtTick(interval, m0, slack, Reports(trace));
  }

  lemma SamePhase(t: nat, c: nat, d: nat)
    requires d > 0
    ensures (t + c * d) % d == t % d
  {
    DivideExactly(t, c, d);
    var q, base := QuotientOf(t, d);
    var q', base' := QuotientOf(t + c * d, d);
    assert base' == base + c * d;
  }

  /** When the interval divides one second all ticks lie equally far behind the last deadline. */
  lemma {:induction false} TickPhase(interval: nat, c: nat, slack: nat, k: nat)
    requires interval > 0 && c * interval == SECOND
    ensures TickTime(slack, k) % interval == slack % interval
  {
    if k > 0 {
      TickPhase(interval, c, slack, k - 1);
      assert TickTime(slack, k) == TickTime(slack, k - 1) + c * interval;
      SamePhase(TickTime(slack, k - 1), c, interval);
    }
  }

  lemma PhaseTolerated(interval: nat, c: nat, slack: nat, late: Lateness, n: nat)
    requires interval > 0 && c * interval == SECOND && Tolerates(interval, slack, late)
    ensures Tolerated(interval, slack, late, n)
  {
    forall k | 1 <= k <= n ensures Tolerates(interval, TickTime(slack, k), late) {
      TickPhase(interval, c, slack, k);
    }
  }

  lemma TolerantCounts(trace: seq<Moment>, interval: nat, c: nat, m0: nat, slack: nat, late: Lateness, k: nat)
    requires interval > 0 && TimelyJoint(trace, DueTimes(interval, m0), slack, late)
    requires c * interval == SECOND && k < |Deltas(trace)| && Tolerates(interval, slack, late)
    ensures Deltas(trace)[k] == TickCount(interval, m0, slack, k + 1)
  {
    PhaseTolerated(interval, c, slack, late, Reports(trace));
    TimelyReports(trace, interval, m0, slack, late);
  }

  /** When the interval divides one second and the lateness is tolerated, every tick after the first reports
      1e9/interval, and the first reports slack/interval more and m0 fewer. */
  lemma TolerantReports(trace: seq<Moment>, interval: nat, c: nat, m0: nat, slack: nat, late: Lateness, k: nat)
    requires interval > 0 && TimelyJoint(trace, DueTimes(interval, m0), slack, late)
    requires StartedBefore(interval, m0, slack) && c * interval == SECOND && k < |Deltas(trace)|
    requires late.message <= slack % interval && late.tick < interval - slack % interval
    ensures Deltas(trace)[k] == if k == 0 then c + slack / interval - m0 else c
  {
    TolerantCounts(trace, interval, c, m0, slack, late, k);
    ExactCounts(interval, c, m0, slack, k + 1);
  }

  /** The same for exact timing. */
  lemma ExactReports(trace: seq<Moment>, interval: nat, c: nat, m0: nat, slack: nat, k: nat)
    requires interval > 0 && IdealJoint(trace, DueTimes(interval, m0), slack)
    requires StartedBefore(interval, m0, slack) && c * interval == SECOND && k < |Deltas(trace)|
    ensures Deltas(trace)[k] == if k == 0 then c + slack / interval - m0 else c
  {
    TolerantReports(trace, interval, c, m0, slack, PUNCTUAL, k);
  }

  lemma NominalInterval(rate: nat, burst: U32, c: nat) returns (n: nat)
    requires rate > 0 && rate * Max(1, burst) * c == SECOND
    ensures n == rate * Max(1, burst) && n * c == SECOND && IntervalNs(rate as real, burst) == c
  {
    n := rate * Max(1, burst);
    ExactInterval(rate, burst, c);
  }

  /** A publisher whose message period is a whole number of nanoseconds reports exactly rate_hz * burst in
      every tick after the first. */
  lemma NominalReports(rate: nat, burst: U32, c: nat, trace: seq<Moment>, m0: nat, slack: nat, k: nat)
    requires rate > 0 && rate * Max(1, burst) * c == SECOND
    requires IdealJoint(trace, DueTimes(IntervalNs(rate as real, burst), m0), slack)
    requires StartedBefore(IntervalNs(rate as real, burst), m0, slack) && 1 <= k < |Deltas(trace)|
    ensures Deltas(trace)[k] == rate * Max(1, burst)
  {
    var n := NominalInterval(rate, burst, c);
    ExactReports(trace, c, n, m0, slack, k);
  }

  /** The same count in every tick from the second on. */
  predicate ConstantFromSecond(deltas: seq<nat>, c: nat) {
    forall k :: 1 <= k < |deltas| ==> deltas[k] == c
  }

  ghost predicate AlwaysConstant(interval: nat, m0: nat, slack: nat, c: nat) {
    forall trace :: IdealJoint(trace, DueTimes(interval, m0), slack) ==> ConstantFromSecond(Deltas(trace), c)
  }

  /** Which publishers report the same count every second, c in number: exactly those whose interval is
      one c-th of a second, whatever the slack and the start time. */
  lemma SteadyReports(interval: nat, m0: nat, slack: nat, c: nat)
    requires interval > 0 && StartedBefore(interval, m0, slack)
    ensures AlwaysConstant(interval, m0, slack, c) <==> c * interval == SECOND
  {
    if c * interval == SECOND {
      forall trace | IdealJoint(trace, DueTimes(interval, m0), slack) ensures ConstantFromSecond(Deltas(trace), c) {
        forall k | 1 <= k < |Deltas(trace)| ensures Deltas(trace)[k] == c {
          ExactReports(trace, interval, c, m0, slack, k);
        }
      }
    }
    if AlwaysConstant(interval, m0, slack, c) {
      DueTimesAscend(interval, m0);
      forall k | k >= 2 ensures TickCount(interval, m0, slack, k) == c {
        var trace := IdealJointExists(DueTimes(interval, m0), slack, k);
        IdealReports(trace, interval, m0, slack);
        assert Deltas(trace)[k - 1] == c;
      }
      SteadyIffDivides(interval, m0, slack, c);
    }
  }

  // ---------------------------------------------------------------- how much lateness the slack tolerates

  lemma IdealIsTimely(trace: seq<Moment>, due: nat -> nat, slack: nat, late: Lateness)
    requires IdealJoint(trace, due, slack)
    ensures TimelyJoint(trace, due, slack, late)
  {
    forall i | 0 <= i < |trace| ensures TimelyMoment(trace[..i], trace[i], due, slack, late) {
      assert TimelyMoment(trace[..i], trace[i], due, slack, PUNCTUAL);
    }
  }

  lemma OngoingLater(trace: seq<Moment>, due: nat -> nat, slack: nat, late: Lateness, bound: nat, bound': nat)
    requires Ongoing(trace, due, slack, PUNCTUAL, bound) && bound <= bound'
    ensures Ongoing(trace, due, slack, late, bound')
  {
    IdealIsTimely(trace, due, slack, late);
    NoneAfterLater(trace, bound, bound');
  }

  lemma {:induction false} CountedByBound(trace: seq<Moment>, due: nat -> nat, slack: nat, late: Lateness, bound: nat)
    requires TimelyJoint(trace, due, slack, late) && NoneAfter(trace, bound) && Counts(trace) > 0
    ensures due(Counts(trace) - 1) <= bound
  {
    var i := LastCounted(trace);
    assert TimelyMoment(trace[..i], trace[i], due, slack, late);
  }

  lemma {:induction false} OneReport(trace: seq<Moment>)
    requires Reports(trace) == 1
    ensures |Deltas(trace)| == 1 && Deltas(trace)[0] + CountsSince(trace) == Counts(trace)
  {
    NothingDropped(trace);
    assert Deltas(trace) == [] + [Deltas(trace)[0]];
    SumAppend([], Deltas(trace)[0]);
  }

  lemma {:induction false} LateReport(trace: seq<Moment>, due: nat -> nat, slack: nat, late: Lateness, bound: nat,
                                      at: nat)
    requires Ongoing(trace, due, slack, late, bound) && bound < due(Outs(trace)) && Reports(trace) == 1
    requires TickTime(slack, 2) <= at <= TickTime(slack, 2) + late.tick && bound <= at <= bound + late.message
    ensures TimelyJoint(trace + [Report(at)], due, slack, late)
    ensures Deltas(trace + [Report(at)]) == Deltas(trace) + [CountsSince(trace)]
  {
    NoneAfterLater(trace, bound, at);
    TimelyAppend(trace, Report(at), due, slack, late);
    Append(trace, Report(at));
  }

  /** A trace with two ticks, the second at `at` after just the messages due by `bound`. */
  lemma {:induction false} SecondTick(due: nat -> nat, slack: nat, late: Lateness, bound: nat, at: nat)
    returns (trace: seq<Moment>, first: seq<Moment>, count: nat)
    requires Ascending(due) && TickTime(slack, 1) <= bound <= at <= bound + late.message
    requires TickTime(slack, 2) <= at <= TickTime(slack, 2) + late.tick
    ensures TimelyJoint(trace, due, slack, late)
    ensures IdealJoint(first, due, slack) && |Deltas(first)| == 1
    ensures |Deltas(trace)| == 2 && Deltas(trace)[0] == Deltas(first)[0] && Deltas(trace)[1] == count - Deltas(first)[0]
    ensures bound < due(count) && (count > 0 ==> due(count - 1) <= bound)
  {
    first := IdealJointExists(due, slack, 1);
    OngoingLater(first, due, slack, late, TickTime(slack, 1), bound);
    var filled := FillTo(first, due, slack, late, bound);
    OneReport(filled);
    count := Counts(filled);
    if count > 0 {
      CountedByBound(filled, due, slack, late, bound);
    }
    LateReport(filled, due, slack, late, bound, at);
    trace := filled + [Report(at)];
  }

  lemma DivisorAtMost(c: nat, d: nat, x: nat)
    requires c * d == x && x > 0
    ensures c > 0 && d <= x
  {
    assert c * d == (c - 1) * d + d;
  }

  /** The first tick lies r after the q-th multiple of the interval, the second r after the n-th. */
  lemma TwoTicks(interval: nat, c: nat, slack: nat) returns (q: nat, n: nat, base: nat, r: nat)
    requires interval > 0 && c * interval == SECOND
    ensures r == slack % interval < interval <= SECOND && c > 0
    ensures q == TickTime(slack, 1) / interval && n == q + c && base == n * interval
    ensures TickTime(slack, 1) + SECOND == TickTime(slack, 2) == base + r
  {
    DivisorAtMost(c, interval, SECOND);
    r := slack % interval;
    TickPhase(interval, c, slack, 1);
    var base1;
    q, base1 := QuotientOf(TickTime(slack, 1), interval);
    n := q + c;
    base := n * interval;
    assert base == base1 + c * interval;
  }

  lemma DueTimeIs(interval: nat, m0: nat, i: nat)
    ensures DueTimes(interval, m0)(i) == Deadline(interval, m0 + i)
  {
  }

  lemma DeadlineBelow(interval: nat, m: nat, q: nat, base: nat)
    requires interval > 0 && base == q * interval && Deadline(interval, m) < base
    ensures m + 1 < q
  {
    ProductOrder(m + 1, q, interval);
  }

  lemma DeadlineAbove(interval: nat, m: nat, q: nat, base: nat)
    requires interval > 0 && base == q * interval && base + interval < Deadline(interval, m)
    ensures m > q
  {
    ProductOrder(q + 1, m + 1, interval);
    assert (q + 1) * interval == base + interval;
  }

  lemma TooFew(interval: nat, m0: nat, count: nat, q: nat, base: nat)
    requires interval > 0 && base == q * interval && m0 < q
    requires count > 0 ==> DueTimes(interval, m0)(count - 1) <= base - 1
    ensures m0 + count < q
  {
    if count > 0 {
      DueTimeIs(interval, m0, count - 1);
      DeadlineBelow(interval, m0 + (count - 1), q, base);
    }
  }

  lemma TooMany(interval: nat, m0: nat, count: nat, q: nat, base: nat)
    requires interval > 0 && base == q * interval && base + interval < DueTimes(interval, m0)(count)
    ensures m0 + count > q
  {
    DueTimeIs(interval, m0, count);
    DeadlineAbove(interval, m0 + count, q, base);
  }

  lemma FirstReport(first: seq<Moment>, interval: nat, m0: nat, slack: nat)
    requires interval > 0 && StartedBefore(interval, m0, slack)
    requires IdealJoint(first, DueTimes(interval, m0), slack) && |Deltas(first)| == 1
    ensures Deltas(first)[0] == TickTime(slack, 1) / interval - m0
  {
    IdealReports(first, interval, m0, slack);
    DueAtTick(interval, m0, slack, 1);
  }

  lemma TwoReports(due: nat -> nat, slack: nat, late: Lateness, bound: nat, at: nat, reported: nat)
    returns (trace: seq<Moment>, count: nat)
    requires Ascending(due) && TickTime(slack, 1) <= bound <= at <= bound + late.message
    requires TickTime(slack, 2) <= at <= TickTime(slack, 2) + late.tick
    requires forall first :: IdealJoint(first, due, slack) && |Deltas(first)| == 1 ==> Deltas(first)[0] == reported
    ensures TimelyJoint(trace, due, slack, late)
    ensures |Deltas(trace)| == 2 && Deltas(trace)[1] == count - reported
    ensures bound < due(count) && (count > 0 ==> due(count - 1) <= bound)
  {
    var first;
    trace, first, count := SecondTick(due, slack, late, bound, at);
  }

  lemma FirstReports(interval: nat, m0: nat, slack: nat, reported: nat)
    requires interval > 0 && StartedBefore(interval, m0, slack) && reported == TickTime(slack, 1) / interval - m0
    ensures Ascending(DueTimes(interval, m0))
    ensures forall first :: IdealJoint(first, DueTimes(interval, m0), slack) && |Deltas(first)| == 1 ==>
      Deltas(first)[0] == reported
  {
    DueTimesAscend(interval, m0);
    forall first | IdealJoint(first, DueTimes(interval, m0), slack) && |Deltas(first)| == 1
      ensures Deltas(first)[0] == reported
    {
      FirstReport(first, interval, m0, slack);
    }
  }

  /** Two ticks r behind the multiples q and n of the interval, the second with a late message missing. */
  lemma LateMessageTrace(interval: nat, m0: nat, slack: nat, late: Lateness, q: nat, n: nat, base: nat, r: nat)
    returns (trace: seq<Moment>)
    requires interval > 0 && StartedBefore(interval, m0, slack) && q == TickTime(slack, 1) / interval
    requires q < n && base == n * interval && r < late.message
    requires TickTime(slack, 1) < base && TickTime(slack, 2) == base + r
    ensures TimelyJoint(trace, DueTimes(interval, m0), slack, late)
    ensures |Deltas(trace)| == 2 && Deltas(trace)[1] < n - q
  {
    FirstReports(interval, m0, slack, q - m0);
    var count;
    trace, count := TwoReports(DueTimes(interval, m0), slack, late, base - 1, base + r, q - m0);
    TooFew(interval, m0, count, n, base);
  }

  /** The same with the second tick late and a message of the next second counted. */
  lemma LateTickTrace(interval: nat, m0: nat, slack: nat, late: Lateness, q: nat, n: nat, base: nat, r: nat)
    returns (trace: seq<Moment>)
    requires interval > 0 && StartedBefore(interval, m0, slack) && q == TickTime(slack, 1) / interval
    requires base == n * interval && r < interval <= r + late.tick
    requires TickTime(slack, 1) < base && TickTime(slack, 2) == base + r
    ensures TimelyJoint(trace, DueTimes(interval, m0), slack, late)
    ensures |Deltas(trace)| == 2 && Deltas(trace)[1] > n - q
  {
    FirstReports(interval, m0, slack, q - m0);
    var count;
    trace, count := TwoReports(DueTimes(interval, m0), slack, late, base + interval, base + interval, q - m0);
    TooMany(interval, m0, count, n, base);
  }

  /** A message late by more than the slack's remainder can miss its tick. */
  lemma LateMessageShows(interval: nat, c: nat, m0: nat, slack: nat, late: Lateness) returns (trace: seq<Moment>)
    requires interval > 0 && c * interval == SECOND && StartedBefore(interval, m0, slack)
    requires late.message > slack % interval
    ensures TimelyJoint(trace, DueTimes(interval, m0), slack, late)
    ensures |Deltas(trace)| == 2 && Deltas(trace)[1] < c
  {
    var q, n, base, r := TwoTicks(interval, c, slack);
    trace := LateMessageTrace(interval, m0, slack, late, q, n, base, r);
  }

  /** A tick late by the rest of the interval or more can count a message of the next second. */
  lemma LateTickShows(interval: nat, c: nat, m0: nat, slack: nat, late: Lateness) returns (trace: seq<Moment>)
    requires interval > 0 && c * interval == SECOND && StartedBefore(interval, m0, slack)
    requires late.tick >= interval - slack % interval
    ensures TimelyJoint(trace, DueTimes(interval, m0), slack, late)
    ensures |Deltas(trace)| == 2 && Deltas(trace)[1] > c
  {
    var q, n, base, r := TwoTicks(interval, c, slack);
    trace := LateTickTrace(interval, m0, slack, late, q, n, base, r);
  }

  /** What the slack is for: with an interval that divides one second into c parts, every tick after the first
      reports c whatever happens within the allowed lateness, if and only if messages are late by at most
      slack mod interval and ticks by less than the rest of the interval. */
  lemma ToleranceExactly(interval: nat, c: nat, m0: nat, slack: nat, late: Lateness)
    requires interval > 0 && c * interval == SECOND && StartedBefore(interval, m0, slack)
    ensures (forall trace :: TimelyJoint(trace, DueTimes(interval, m0), slack, late) ==>
               ConstantFromSecond(Deltas(trace), c))
       <==> late.message <= slack % interval && late.tick < interval - slack % interval
  {
    if late.message > slack % interval {
      var trace := LateMessageShows(interval, c, m0, slack, late);
      assert !ConstantFromSecond(Deltas(trace), c);
    } else if late.tick >= interval - slack % interval {
      var trace := LateTickShows(interval, c, m0, slack, late);
      assert !ConstantFromSecond(Deltas(trace), c);
    } else {
      forall trace | TimelyJoint(trace, DueTimes(interval, m0), slack, late)
        ensures ConstantFromSecond(Deltas(trace), c)
      {
        forall k | 1 <= k < |Deltas(trace)| ensures Deltas(trace)[k] == c {
          TolerantReports(trace, interval, c, m0, slack, late, k);
        }
      }
    }
  }
}
