/** When the ping/pong exchange is over for good: the exact condition, and runs that meet it. */
module PingPongStall {
  import opened PingNode
  import opened PingPong
  import opened PingPongRuns
  import opened PongPeers
  import opened Sorting
  import opened Wire

  /** Nothing that can happen after the run gets another pong accepted. */
  ghost predicate Stalled(c: Config, run: seq<Action>, s: State) {
    forall more :: Exec(c, run + more).At? ==> Exec(c, run + more).state.log == s.log
  }

  /** The last number accepted from g is at least `bound`. */
  predicate HeardUpTo(p: Pongs, g: Gid, bound: nat) {
    g in p.tracks && p.tracks[g].lastSeq >= bound
  }

  /** Every peer's last accepted number is the greatest that a pong can carry. */
  predicate AllFull(c: Config, s: State) {
    forall g :: g in c.peers ==> HeardUpTo(s.node.pongs, g, TWO_32 - 2)
  }

  /** How many pings are published or will be even if the run is stopped. */
  function Bound(s: State): nat {
    |s.sent| + (if s.sender.Want? || s.sender.Hold? then 1 else 0)
    + (if s.handler.Want? || s.handler.Hold? then 1 else 0)
  }

  /** The pong number of the k-th ping. */
  function PongNumber(k: nat): nat { 2 * (k % TWO_31) }

  /** Every peer's last accepted number is at least that of each ping still to be answered. */
  ghost predicate AllCaughtUp(c: Config, s: State) {
    forall g, k :: g in c.peers && 0 <= k < Bound(s) ==> HeardUpTo(s.node.pongs, g, PongNumber(k))
  }

  /** The exact condition: every peer is full or, once the run has been stopped, has caught up. */
  ghost predicate OutOfNumbers(c: Config, s: State) {
    if s.stop then AllCaughtUp(c, s) else AllFull(c, s)
  }

  // ---------------------------------------------------------------- out of numbers: nothing is accepted

  lemma TrackOf(p: Pongs, log: seq<Accept>, g: Gid) returns (h: seq<Accept>)
    requires LogMatches(p, log)
    ensures h == Heard(log, g) && (g !in p.tracks ==> h == [])
    ensures g in p.tracks ==>
      h != [] && StrictlyAscending(h, SeqNoOf) && p.tracks[g].lastSeq == h[|h| - 1].msg.seqNo
  {
    h := Heard(log, g);
  }

  lemma LastBelowWrap(c: Config, s: State, g: Gid)
    requires InvSend(c, s) && InvLog(c, s) && g in s.node.pongs.tracks
    ensures s.node.pongs.tracks[g].lastSeq < TWO_32
  {
    HeardEven(c, s, g);
    var h := TrackOf(s.node.pongs, s.log, g);
  }

  lemma NotAbove(n: Node, g: Gid, m: Uks)
    requires HeardUpTo(n.pongs, g, m.seqNo) && n.pongs.tracks[g].lastSeq < TWO_32
    ensures !AcceptsPong(n, g, m)
  {
  }

  /** A peer whose last number is that of ping k or higher is not accepted with an echo of ping k. */
  lemma EchoRefused(c: Config, s: State, q: Pong, k: nat)
    requires InvSend(c, s) && InvLog(c, s) && k < |s.sent| && q.msg == Echo(s.sent[k])
    requires HeardUpTo(s.node.pongs, q.source, PongNumber(k))
    ensures !AcceptsPong(s.node, q.source, q.msg)
  {
    EchoNumber(c, s, k);
    LastBelowWrap(c, s, q.source);
    NotAbove(s.node, q.source, q.msg);
  }

  lemma NumbersEnd(k: nat)
    ensures PongNumber(k) <= TWO_32 - 2
  {
  }

  lemma HeardFurther(p: Pongs, g: Gid, bound: nat, bound': nat)
    requires HeardUpTo(p, g, bound) && bound' <= bound
    ensures HeardUpTo(p, g, bound')
  {
  }

  lemma OutRefused(c: Config, s: State, q: Pong)
    requires Inv(c, s) && OutOfNumbers(c, s) && q in s.echoed
    ensures !AcceptsPong(s.node, q.source, q.msg)
  {
    var k := EchoFacts(c, s, q.msg);
    if !s.stop {
      NumbersEnd(k);
      HeardFurther(s.node.pongs, q.source, TWO_32 - 2, PongNumber(k));
    }
    EchoRefused(c, s, q, k);
  }

  /** A step that accepts nothing leaves every last number alone. */
  lemma TracksKept(c: Config, s: State, a: Action, g: Gid, bound: nat)
    requires Enabled(c, s, a) && !(a.Deliver? && AcceptsPong(s.node, a.q.source, a.q.msg))
    requires HeardUpTo(s.node.pongs, g, bound)
    ensures HeardUpTo(Apply(c, s, a).node.pongs, g, bound)
  {
  }

  /** Once stopped, no step adds to the pings that will be published. */
  lemma BoundKept(c: Config, s: State, a: Action)
    requires Enabled(c, s, a) && Apply(c, s, a).stop && (s.stop || a.Stop?)
    ensures Bound(Apply(c, s, a)) <= Bound(s)
  {
  }

  lemma OutStep(c: Config, s: State, a: Action)
    requires Inv(c, s) && OutOfNumbers(c, s) && Enabled(c, s, a)
    ensures Apply(c, s, a).log == s.log && OutOfNumbers(c, Apply(c, s, a))
  {
    if a.Deliver? {
      OutRefused(c, s, a.q);
    }
    LogOnlyByDelivery(c, s, a);
    var s' := Apply(c, s, a);
    if s'.stop {
      BoundKept(c, s, a);
      forall g, k | g in c.peers && 0 <= k < Bound(s') ensures HeardUpTo(s'.node.pongs, g, PongNumber(k)) {
        if !s.stop {
          NumbersEnd(k);
          HeardFurther(s.node.pongs, g, TWO_32 - 2, PongNumber(k));
        }
        TracksKept(c, s, a, g, PongNumber(k));
      }
    } else {
      forall g | g in c.peers ensures HeardUpTo(s'.node.pongs, g, TWO_32 - 2) {
        TracksKept(c, s, a, g, TWO_32 - 2);
      }
    }
  }

  lemma {:induction false} OutForGood(c: Config, run: seq<Action>, s: State, more: seq<Action>, s': State)
    requires Exec(c, run) == At(s) && OutOfNumbers(c, s) && Exec(c, run + more) == At(s')
    ensures s'.log == s.log && OutOfNumbers(c, s')
  {
    if more == [] {
      assert run + more == run;
    } else {
      var n := |more| - 1;
      assert (run + more)[..|run| + n] == run + more[..n];
      var mid := Exec(c, run + more[..n]).state;
      OutForGood(c, run, s, more[..n], mid);
      RunInvariant(c, run + more[..n]);
      OutStep(c, mid, more[n]);
    }
  }

  // ---------------------------------------------------------------- what is true while nothing stopped the run

  /** The sender returns only by itself, and every accepted pong has led or will lead to a ping. */
  ghost predicate InvLive(c: Config, s: State) {
    && (s.sender.Done? ==> c.responseDriven || s.stop)
    && (c.responseDriven && !s.stop ==> |s.sent| + Committed(s) == 1 + |s.log|)
  }

  lemma LiveStep(c: Config, s: State, a: Action)
    requires InvToken(c, s) && InvLive(c, s) && Enabled(c, s, a)
    ensures InvLive(c, Apply(c, s, a))
  {
  }

  /** The i-th accepted pong has at most number 2*i. */
  ghost predicate Slow(log: seq<Accept>) {
    forall i :: 0 <= i < |log| ==> log[i].msg.seqNo <= 2 * i
  }

  lemma SlowStep(c: Config, s: State, a: Action)
    requires c.responseDriven && Inv(c, s) && Slow(s.log) && Enabled(c, s, a)
    ensures Slow(Apply(c, s, a).log)
  {
    if a.Deliver? && AcceptsPong(s.node, a.q.source, a.q.msg) {
      var k := EchoFacts(c, s, a.q.msg);
      ModBelow(k);
    } else {
      LogOnlyByDelivery(c, s, a);
    }
  }

  lemma {:induction false} LiveRun(c: Config, run: seq<Action>)
    ensures Exec(c, run).At? ==> InvLive(c, Exec(c, run).state)
    ensures Exec(c, run).At? && c.responseDriven ==> Slow(Exec(c, run).state.log)
  {
    if run != [] {
      var n := |run| - 1;
      LiveRun(c, run[..n]);
      if Exec(c, run).At? {
        RunInvariant(c, run[..n]);
        var s := Exec(c, run[..n]).state;
        LiveStep(c, s, run[n]);
        if c.responseDriven {
          SlowStep(c, s, run[n]);
        }
      }
    }
  }

  // ---------------------------------------------------------------- running the pending steps to rest

  /** The sender has a step of its own to take. */
  predicate SenderMoves(c: Config, s: State) {
    s.sender.Want? || InLock(s.sender) || (s.sender.Waiting? && c.responseDriven && !s.stop)
  }

  predicate AtRest(c: Config, s: State) { s.handler.Waiting? && !SenderMoves(c, s) }

  function SenderStep(s: State): Action {
    match s.sender
    case Hold(_) => Publish(Sender)
    case Out => Count(Sender)
    case Want => Begin(Sender)
    case _ => SenderWake
  }

  function HandlerStep(s: State): Action {
    match s.handler
    case Hold(_) => Publish(Handler)
    case Out => Count(Handler)
    case Want => Begin(Handler)
    case Counted => HandlerCheck
    case _ => CountAccepted
  }

  /** A pending step: whoever holds the send lock moves first, then the handler, then the sender. */
  function PendingStep(s: State): Action {
    if InLock(s.sender) || s.handler.Waiting? then SenderStep(s) else HandlerStep(s)
  }

  function PcRank(pc: Pc): nat {
    match pc
    case Accepted => 6
    case Counted => 5
    case Waiting => 4
    case Want => 3
    case Hold(_) => 2
    case Out => 1
    case Done => 0
  }

  /** How many pending steps there can be. */
  function Rank(c: Config, s: State): nat {
    (if SenderMoves(c, s) then PcRank(s.sender) else 0) + if s.handler.Waiting? then 0 else PcRank(s.handler)
  }

  lemma PendingEnabled(c: Config, s: State)
    requires InvSend(c, s) && InvToken(c, s) && !AtRest(c, s)
    ensures Enabled(c, s, PendingStep(s))
  {
  }

  lemma PendingMoves(c: Config, s: State)
    requires InvToken(c, s) && !AtRest(c, s) && Enabled(c, s, PendingStep(s))
    ensures var s' := Apply(c, s, PendingStep(s));
      && Rank(c, s') < Rank(c, s) && s'.log == s.log && s'.stop == s.stop && s'.node.pongs == s.node.pongs
      && (s.stop ==> Bound(s') == Bound(s)) && |s.sent| <= |s'.sent|
  {
  }

  /** Let the threads finish what they are at. */
  lemma {:induction false} Settle(c: Config, before: seq<Action>, s0: State) returns (run: seq<Action>, s: State)
    requires Exec(c, before) == At(s0)
    ensures before <= run && Exec(c, run) == At(s) && AtRest(c, s)
    ensures s.log == s0.log && s.stop == s0.stop && s.node.pongs == s0.node.pongs
    ensures s0.stop ==> Bound(s) == Bound(s0)
    decreases Rank(c, s0)
  {
    run, s := before, s0;
    if !AtRest(c, s0) {
      RunInvariant(c, before);
      PendingEnabled(c, s0);
      PendingMoves(c, s0);
      After(c, before, PendingStep(s0), s0);
      run, s := Settle(c, before + [PendingStep(s0)], Apply(c, s0, PendingStep(s0)));
    }
  }

  // ---------------------------------------------------------------- otherwise a pong can still be accepted

  /** At rest, a peer behind ping k can answer it. */
  lemma AnswerLate(c: Config, before: seq<Action>, s: State, g: Gid, k: nat) returns (run: seq<Action>)
    requires Exec(c, before) == At(s) && s.handler.Waiting? && g in c.peers && k < |s.sent|
    requires !HeardUpTo(s.node.pongs, g, PongNumber(k))
    ensures before <= run && Exec(c, run).At? && |Exec(c, run).state.log| == |s.log| + 1
  {
    RunInvariant(c, before);
    BehindAccepts(c, s, g, k);
    After(c, before, EchoPing(g, k), s);
    var q := Pong(g, Echo(s.sent[k]));
    After(c, before + [EchoPing(g, k)], Deliver(q), Apply(c, s, EchoPing(g, k)));
    run := before + [EchoPing(g, k)] + [Deliver(q)];
  }

  lemma BehindAccepts(c: Config, s: State, g: Gid, k: nat)
    requires InvSend(c, s) && k < |s.sent| && !HeardUpTo(s.node.pongs, g, PongNumber(k))
    ensures s.sent[k].seqNo % 2 == 1 && AcceptsPong(s.node, g, Echo(s.sent[k]))
  {
    EchoNumber(c, s, k);
    assert IsPing(c, s.now, s.sent[k], k);
    NumbersEnd(k);
    AboveAccepted(s.node, g, Echo(s.sent[k]), k % TWO_31);
  }

  lemma AboveAccepted(n: Node, g: Gid, m: Uks, r: nat)
    requires m.seqNo == 2 * r < TWO_32 && !HeardUpTo(n.pongs, g, 2 * r)
    ensures AcceptsPong(n, g, m)
  {
  }

  /** The timer-driven sender publishes one more ping. */
  lemma SendByTimer(c: Config, before: seq<Action>, s0: State) returns (run: seq<Action>, s: State)
    requires Exec(c, before) == At(s0) && !c.responseDriven && !s0.stop
    requires s0.sender.Waiting? && s0.handler.Waiting?
    ensures before <= run && Exec(c, run) == At(s)
    ensures s.sender.Waiting? && s.handler.Waiting? && !s.stop
    ensures s.log == s0.log && s.node.pongs == s0.node.pongs && |s.sent| == |s0.sent| + 1
  {
    After(c, before, SenderWake, s0);
    run, s := before + [SenderWake], Apply(c, s0, SenderWake);
    After(c, run, Begin(Sender), s);
    run, s := run + [Begin(Sender)], Apply(c, s, Begin(Sender));
    After(c, run, Publish(Sender), s);
    run, s := run + [Publish(Sender)], Apply(c, s, Publish(Sender));
    After(c, run, Count(Sender), s);
    run, s := run + [Count(Sender)], Apply(c, s, Count(Sender));
  }

  lemma {:induction false} SendUntil(c: Config, before: seq<Action>, s0: State, n: nat)
    returns (run: seq<Action>, s: State)
    requires Exec(c, before) == At(s0) && !c.responseDriven && !s0.stop
    requires s0.sender.Waiting? && s0.handler.Waiting?
    ensures before <= run && Exec(c, run) == At(s) && s.handler.Waiting?
    ensures s.log == s0.log && s.node.pongs == s0.node.pongs && |s.sent| >= n
    decreases n - |s0.sent|
  {
    run, s := before, s0;
    if |s0.sent| < n {
      run, s := SendByTimer(c, before, s0);
      run, s := SendUntil(c, run, s, n);
    }
  }

  /** The last number accepted from a peer is that of some entry of the log. */
  lemma LastInLog(p: Pongs, log: seq<Accept>, g: Gid) returns (i: nat)
    requires LogMatches(p, log) && g in p.tracks
    ensures i < |log| && p.tracks[g].lastSeq == log[i].msg.seqNo
  {
    var h := TrackOf(p, log, g);
    HeardIn(log, g, |h| - 1);
    i :| 0 <= i < |log| && log[i] == h[|h| - 1];
  }

  lemma LastIsSlow(p: Pongs, log: seq<Accept>, g: Gid)
    requires LogMatches(p, log) && Slow(log) && g in p.tracks
    ensures p.tracks[g].lastSeq <= 2 * (|log| - 1)
  {
    var i := LastInLog(p, log, g);
  }

  /** Of n+1 pings, the newest is ahead of any peer last accepted with at most 2*(n-1), up to the wrap. */
  lemma NewestAhead(p: Pongs, g: Gid, n: nat) returns (k: nat)
    requires g in p.tracks ==> p.tracks[g].lastSeq <= 2 * (n - 1)
    requires !HeardUpTo(p, g, TWO_32 - 2)
    ensures k <= n && !HeardUpTo(p, g, PongNumber(k))
  {
    k := if n < TWO_31 then n else TWO_31 - 1;
    ModBelow(k);
  }

  lemma RestedTokens(c: Config, s: State)
    requires c.responseDriven && InvToken(c, s) && InvLive(c, s) && AtRest(c, s) && !s.stop
    ensures |s.sent| == 1 + |s.log|
  {
  }

  lemma RestedTimer(c: Config, s: State)
    requires !c.responseDriven && InvToken(c, s) && InvLive(c, s) && AtRest(c, s) && !s.stop
    ensures s.sender.Waiting?
  {
  }

  lemma AnswerNewest(c: Config, before: seq<Action>, s: State, g: Gid) returns (run: seq<Action>)
    requires c.responseDriven && Exec(c, before) == At(s) && AtRest(c, s) && !s.stop
    requires g in c.peers && !HeardUpTo(s.node.pongs, g, TWO_32 - 2)
    ensures before <= run && Exec(c, run).At? && |Exec(c, run).state.log| == |s.log| + 1
  {
    RunInvariant(c, before);
    LiveRun(c, before);
    RestedTokens(c, s);
    if g in s.node.pongs.tracks {
      LastIsSlow(s.node.pongs, s.log, g);
    }
    var k := NewestAhead(s.node.pongs, g, |s.log|);
    run := AnswerLate(c, before, s, g, k);
  }

  lemma AnswerByTimer(c: Config, before: seq<Action>, s0: State, g: Gid) returns (run: seq<Action>)
    requires !c.responseDriven && Exec(c, before) == At(s0) && AtRest(c, s0) && !s0.stop
    requires g in c.peers && !HeardUpTo(s0.node.pongs, g, TWO_32 - 2)
    ensures before <= run && Exec(c, run).At? && |Exec(c, run).state.log| == |s0.log| + 1
  {
    RunInvariant(c, before);
    LiveRun(c, before);
    RestedTimer(c, s0);
    var s;
    run, s := SendUntil(c, before, s0, TWO_31);
    ModBelow(TWO_31 - 1);
    run := AnswerLate(c, run, s, g, TWO_31 - 1);
  }

  /** A peer that is not full can always be accepted once more while nothing has stopped the run. */
  lemma NotFullGoesOn(c: Config, before: seq<Action>, s0: State, g: Gid) returns (run: seq<Action>)
    requires Exec(c, before) == At(s0) && !s0.stop && g in c.peers && !HeardUpTo(s0.node.pongs, g, TWO_32 - 2)
    ensures before <= run && Exec(c, run).At? && |Exec(c, run).state.log| == |s0.log| + 1
  {
    var s;
    run, s := Settle(c, before, s0);
    if c.responseDriven {
      run := AnswerNewest(c, run, s, g);
    } else {
      run := AnswerByTimer(c, run, s, g);
    }
  }

  /** A peer that has not caught up can be accepted once more, stopped or not. */
  lemma BehindGoesOn(c: Config, before: seq<Action>, s0: State, g: Gid, k: nat) returns (run: seq<Action>)
    requires Exec(c, before) == At(s0) && s0.stop && g in c.peers
    requires k < Bound(s0) && !HeardUpTo(s0.node.pongs, g, PongNumber(k))
    ensures before <= run && Exec(c, run).At? && |Exec(c, run).state.log| == |s0.log| + 1
  {
    var s;
    run, s := Settle(c, before, s0);
    run := AnswerLate(c, run, s, g, k);
  }

  lemma ContinuationCounts(c: Config, run: seq<Action>, s: State, run': seq<Action>)
    requires Stalled(c, run, s) && run <= run' && Exec(c, run').At?
    ensures Exec(c, run').state.log == s.log
  {
    assert run + run'[|run|..] == run';
  }

  // ---------------------------------------------------------------- the exact condition

  /** When the exchange is over: in either send mode and after any run, no later pong can be accepted if and
      only if every peer's last accepted number has reached 2^32 - 2, the last one before the wrap or, after
      the stop flag is set, the number of every ping that is or will be published. */
  lemma StallsExactly(c: Config, run: seq<Action>, s: State)
    requires Exec(c, run) == At(s)
    ensures Stalled(c, run, s) <==> OutOfNumbers(c, s)
  {
    if OutOfNumbers(c, s) {
      forall more | Exec(c, run + more).At? ensures Exec(c, run + more).state.log == s.log {
        OutForGood(c, run, s, more, Exec(c, run + more).state);
      }
    } else if s.stop {
      var g, k :| g in c.peers && 0 <= k < Bound(s) && !HeardUpTo(s.node.pongs, g, PongNumber(k));
      var run' := BehindGoesOn(c, run, s, g, k);
      if Stalled(c, run, s) {
        ContinuationCounts(c, run, s, run');
      }
    } else {
      var g :| g in c.peers && !HeardUpTo(s.node.pongs, g, TWO_32 - 2);
      var run' := NotFullGoesOn(c, run, s, g);
      if Stalled(c, run, s) {
        ContinuationCounts(c, run, s, run');
      }
    }
  }

  /** While nothing has stopped the run: the condition on the registry alone. */
  lemma StallsWhenFull(c: Config, run: seq<Action>, s: State)
    requires Exec(c, run) == At(s) && !s.stop
    ensures Stalled(c, run, s) <==>
      forall g :: g in c.peers ==> g in s.node.pongs.tracks && s.node.pongs.tracks[g].lastSeq >= TWO_32 - 2
  {
    StallsExactly(c, run, s);
  }

  /** What a stalled run can still do: no delivery is accepted, and in response-driven mode at most the one
      ping still owed is published. */
  lemma StalledRefuses(c: Config, run: seq<Action>, s: State, more: seq<Action>, s': State)
    requires Exec(c, run) == At(s) && OutOfNumbers(c, s) && Exec(c, run + more) == At(s')
    ensures s'.log == s.log
    ensures forall q :: q in s'.echoed ==> !AcceptsPong(s'.node, q.source, q.msg)
    ensures c.responseDriven ==> |s'.sent| <= 1 + |s.log|
  {
    OutForGood(c, run, s, more, s');
    RunInvariant(c, run + more);
    forall q | q in s'.echoed ensures !AcceptsPong(s'.node, q.source, q.msg) {
      OutRefused(c, s', q);
    }
  }

  // ---------------------------------------------------------------- runs that stall

  /** Every peer has been accepted as often as the 32-bit counter allows. */
  ghost predicate Exhausted(c: Config, s: State) {
    forall g :: g in c.peers ==> |Heard(s.log, g)| >= TWO_31
  }

  lemma FullHeard(p: Pongs, g: Gid, h: seq<Accept>)
    requires |h| >= TWO_31 && AllEven(h)
    requires g !in p.tracks ==> h == []
    requires g in p.tracks ==> StrictlyAscending(h, SeqNoOf) && p.tracks[g].lastSeq == h[|h| - 1].msg.seqNo
    ensures HeardUpTo(p, g, TWO_32 - 2)
  {
    EvenAscending(h, |h| - 1);
  }

  lemma LongIsFull(c: Config, s: State, g: Gid)
    requires InvSend(c, s) && InvLog(c, s) && |Heard(s.log, g)| >= TWO_31
    ensures HeardUpTo(s.node.pongs, g, TWO_32 - 2)
  {
    HeardEven(c, s, g);
    var h := TrackOf(s.node.pongs, s.log, g);
    FullHeard(s.node.pongs, g, h);
  }

  lemma ExhaustedIsOut(c: Config, s: State)
    requires Inv(c, s) && Exhausted(c, s)
    ensures AllFull(c, s) && OutOfNumbers(c, s)
  {
    forall g | g in c.peers ensures HeardUpTo(s.node.pongs, g, TWO_32 - 2) {
      LongIsFull(c, s, g);
    }
    FullIsOut(c, s);
  }

  lemma FullIsOut(c: Config, s: State)
    requires AllFull(c, s)
    ensures OutOfNumbers(c, s)
  {
    forall g, k | g in c.peers && 0 <= k < Bound(s) ensures HeardUpTo(s.node.pongs, g, PongNumber(k)) {
      NumbersEnd(k);
      HeardFurther(s.node.pongs, g, TWO_32 - 2, PongNumber(k));
    }
  }

  /** Once every peer has answered 2^31 pings, whatever happens afterwards, no delivery is ever accepted and
      a response-driven node publishes at most the one ping it still owes. */
  lemma StallsForGood(c: Config, run: seq<Action>, s: State, more: seq<Action>, s': State)
    requires Exec(c, run) == At(s) && Exhausted(c, s) && Exec(c, run + more) == At(s')
    ensures s'.log == s.log
    ensures forall q :: q in s'.echoed ==> !AcceptsPong(s'.node, q.source, q.msg)
    ensures c.responseDriven ==> |s'.sent| <= 1 + |s.log|
  {
    RunInvariant(c, run);
    ExhaustedIsOut(c, s);
    StalledRefuses(c, run, s, more, s');
  }

  /** That state is reached: a run after which the exchange is over, whatever follows. */
  lemma StallHappens(c: Config) returns (run: seq<Action>, s: State)
    requires c.responseDriven
    ensures Exec(c, run) == At(s) && !s.stop && |s.log| == TWO_31 * |c.peers| && |s.sent| == 1 + |s.log|
    ensures Stalled(c, run, s)
    ensures forall more :: Exec(c, run + more).At? ==>
      var s' := Exec(c, run + more).state;
      s'.log == s.log && s'.sent == s.sent && forall q :: q in s'.echoed ==> !AcceptsPong(s'.node, q.source, q.msg)
  {
    run, s := Reaches(c, TWO_31);
    forall more | Exec(c, run + more).At?
      ensures var s' := Exec(c, run + more).state;
        s'.log == s.log && s'.sent == s.sent && forall q :: q in s'.echoed ==> !AcceptsPong(s'.node, q.source, q.msg)
    {
      var s' := Exec(c, run + more).state;
      StallsForGood(c, run, s, more, s');
      SentGrows(c, run, s, more, s');
    }
  }

  lemma {:induction false} SentGrows(c: Config, run: seq<Action>, s: State, more: seq<Action>, s': State)
    requires Exec(c, run) == At(s) && Exec(c, run + more) == At(s')
    ensures s.sent <= s'.sent
  {
    if more == [] {
      assert run + more == run;
    } else {
      var n := |more| - 1;
      assert (run + more)[..|run| + n] == run + more[..n];
      var mid := Exec(c, run + more[..n]).state;
      SentGrows(c, run, s, more[..n], mid);
      SentStep(c, mid, more[n]);
    }
  }

  lemma SentStep(c: Config, s: State, a: Action)
    requires Enabled(c, s, a)
    ensures s.sent <= Apply(c, s, a).sent
  {
  }

  /** One peer answers n pings and no other peer is heard. */
  lemma {:induction false} AnswerAlone(c: Config, h: Gid, n: nat) returns (run: seq<Action>, s: State)
    requires c.responseDriven && h in c.peers && n <= TWO_31
    ensures Exec(c, run) == At(s) && Quiet(s)
    ensures |s.sent| == n + 1 && HeardTo(s.log, h, n)
    ensures forall g :: g != h ==> Heard(s.log, g) == []
  {
    if n == 0 {
      run, s := Started(c);
    } else {
      run, s := AnswerAlone(c, h, n - 1);
      var log := s.log;
      var e;
      run, s, e := Answer(c, run, s, h, n - 1);
      HeardOneMore(log, h, n - 1, e);
      forall g | g != h ensures Heard(s.log, g) == [] {
        HeardAppend(log, e, g);
      }
    }
  }

  lemma HeardOneMore(log: seq<Accept>, h: Gid, n: nat, e: Accept)
    requires HeardTo(log, h, n) && e.peer == h && e.msg.seqNo == 2 * n
    ensures HeardTo(log + [e], h, n + 1)
  {
    HeardAppend(log, e, h);
  }

  lemma LastIsFull(c: Config, s: State, g: Gid, last: Accept)
    requires InvLog(c, s) && Heard(s.log, g) == [last] && last.msg.seqNo >= TWO_32 - 2
    ensures HeardUpTo(s.node.pongs, g, TWO_32 - 2)
  {
    var h := TrackOf(s.node.pongs, s.log, g);
  }

  lemma UnheardAccepts(c: Config, s: State, g: Gid, k: nat)
    requires InvSend(c, s) && InvLog(c, s) && Heard(s.log, g) == [] && k < |s.sent|
    ensures s.sent[k].seqNo % 2 == 1 && AcceptsPong(s.node, g, Echo(s.sent[k]))
  {
    var h := TrackOf(s.node.pongs, s.log, g);
    BehindAccepts(c, s, g, k);
  }

  /** A peer not heard so far answers ping 2^31 - 1. */
  lemma AnswerLast(c: Config, before: seq<Action>, s0: State, g: Gid, h: Gid)
    returns (run: seq<Action>, s: State, last: Accept)
    requires c.responseDriven && Exec(c, before) == At(s0) && Quiet(s0) && g in c.peers && g != h
    requires Heard(s0.log, g) == [] && |s0.sent| >= TWO_31
    ensures Exec(c, run) == At(s) && Quiet(s)
    ensures Heard(s.log, g) == [last] && last.msg.seqNo == TWO_32 - 2 && Heard(s.log, h) == Heard(s0.log, h)
  {
    RunInvariant(c, before);
    var k := TWO_31 - 1;
    UnheardAccepts(c, s0, g, k);
    EchoNumber(c, s0, k);
    ModBelow(k);
    last := Accept(g, Echo(s0.sent[k]), s0.now);
    run, s := Round(c, before, s0, g, k);
    HeardAppend(s0.log, last, g);
    HeardAppend(s0.log, last, h);
  }

  /** Full is not the same as often accepted: with two peers the exchange is over after one accepted pong
      from the one that first answers ping 2^31 - 1, when the other has answered all pings before. */
  lemma StallsUnevenly(c: Config, g: Gid, h: Gid) returns (run: seq<Action>, s: State)
    requires c.responseDriven && c.peers == {g, h} && g != h
    ensures Exec(c, run) == At(s) && !s.stop && Stalled(c, run, s)
    ensures |Heard(s.log, g)| == 1 && |Heard(s.log, h)| == TWO_31
  {
    run, s := AnswerAlone(c, h, TWO_31);
    var last;
    run, s, last := AnswerLast(c, run, s, g, h);
    RunInvariant(c, run);
    LastIsFull(c, s, g, last);
    LongIsFull(c, s, h);
    FullIsOut(c, s);
    StallsExactly(c, run, s);
  }
}
