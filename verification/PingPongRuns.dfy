/** Runs of the ping/pong exchange that do happen: the handler taken without interruption, runs that reach
    the bounds which PingPong proves for every run, and what follows after them. */
module PingPongRuns {
  import opened PingNode
  import opened PingPong
  import opened PongPeers
  import opened Wire

  function FirstPing(c: Config): Uks { Uks(1, c.start, c.baggage) }

  lemma After(c: Config, run: seq<Action>, a: Action, s: State)
    requires Exec(c, run) == At(s) && Enabled(c, s, a)
    ensures Exec(c, run + [a]) == At(Apply(c, s, a))
  {
    assert (run + [a])[..|run|] == run;
  }

  /** The sender's bootstrap ping, published and not counted yet. */
  lemma Bootstrap(c: Config) returns (run: seq<Action>, s: State)
    ensures Exec(c, run) == At(s)
    ensures s == Initial(c).(sender := Out, sent := [FirstPing(c)], node := FRESH_NODE.(nextSeq := 1))
  {
    var s0 := Initial(c);
    run := [];
    After(c, run, SenderWake, s0);
    var s1 := Apply(c, s0, SenderWake);
    run := run + [SenderWake];
    After(c, run, Begin(Sender), s1);
    var s2 := Apply(c, s1, Begin(Sender));
    run := run + [Begin(Sender)];
    After(c, run, Publish(Sender), s2);
    s := Apply(c, s2, Publish(Sender));
    run := run + [Publish(Sender)];
  }

  /** The three steps of a tick, one after the other. */
  lemma WholeTick(c: Config, before: seq<Action>, s0: State) returns (run: seq<Action>, s: State)
    requires Exec(c, before) == At(s0) && s0.tick.Idle?
    requires s0.node.lastPongs <= s0.node.pongsTotal && s0.node.lastPings <= s0.node.pings
    ensures Exec(c, run) == At(s)
    ensures s == s0.(node := TickUpdate(s0.node, 1.0, s0.node.pongsTotal, s0.node.pings),
                     ticks := s0.ticks + [Obs(s0.node.pongsTotal, s0.node.pings, |s0.node.pongs.order|)])
  {
    After(c, before, LoadPongs, s0);
    run, s := before + [LoadPongs], Apply(c, s0, LoadPongs);
    After(c, run, LoadPings, s);
    run, s := run + [LoadPings], Apply(c, s, LoadPings);
    After(c, run, FinishTick, s);
    run, s := run + [FinishTick], Apply(c, s, FinishTick);
  }

  /** A run in which one ping is sent, no pong arrives, and the summary reports two lost. */
  lemma LossReportedTwice(c: Config) returns (run: seq<Action>)
    ensures Exec(c, run).At?
    ensures var s := Exec(c, run).state;
      |s.sent| == s.node.pings == 1 && s.node.pongsTotal == 0 && ReportedLoss(s.node) == 2
  {
    var s;
    run, s := Bootstrap(c);
    After(c, run, Count(Sender), s);
    run, s := run + [Count(Sender)], Apply(c, s, Count(Sender));
    UnitTickLoss(s.node, 0, 1);
    run, s := WholeTick(c, run, s);
  }

  /** The bootstrap ping, echoed and its pong counted while the ping itself is not. */
  lemma PongCountedFirst(c: Config, g: Gid) returns (run: seq<Action>, s: State)
    requires g in c.peers
    ensures Exec(c, run) == At(s)
    ensures s.tick.Idle? && s.ticks == [] && s.node.pongsTotal == 1
    ensures s.node.pings == s.node.lastPings == s.node.lastPongs == 0
  {
    run, s := Bootstrap(c);
    After(c, run, EchoPing(g, 0), s);
    run, s := run + [EchoPing(g, 0)], Apply(c, s, EchoPing(g, 0));
    var q := Pong(g, Echo(FirstPing(c)));
    After(c, run, Deliver(q), s);
    run, s := run + [Deliver(q)], Apply(c, s, Deliver(q));
    After(c, run, CountAccepted, s);
    run, s := run + [CountAccepted], Apply(c, s, CountAccepted);
  }

  /** The one-pong overshoot is real: a run with one peer whose tick sees a pong and no ping. */
  lemma OvershootHappens(c: Config, g: Gid) returns (run: seq<Action>)
    requires g in c.peers
    ensures Exec(c, run).At?
    ensures var s := Exec(c, run).state; |s.ticks| == 1 && s.ticks[0].pongs == s.ticks[0].pings + 1
  {
    var s;
    run, s := PongCountedFirst(c, g);
    run, s := WholeTick(c, run, s);
  }

  // ---------------------------------------------------------------- the handler without interruption

  /** The steps of one call of handle when no other thread moves in between. */
  function HandleSteps(q: Pong, accepted: bool, sends: bool): seq<Action> {
    if !accepted then [Deliver(q)]
    else [Deliver(q), CountAccepted, HandlerCheck] + if sends then SendSteps() else []
  }

  function SendSteps(): seq<Action> {
    [Begin(Handler), Publish(Handler), Count(Handler)]
  }

  lemma ThreeMore(c: Config, run: seq<Action>, s0: State, a: Action, b: Action, d: Action)
    returns (s: State)
    requires Exec(c, run) == At(s0) && Enabled(c, s0, a)
    requires Enabled(c, Apply(c, s0, a), b)
    requires Enabled(c, Apply(c, Apply(c, s0, a), b), d)
    ensures s == Apply(c, Apply(c, Apply(c, s0, a), b), d)
    ensures Exec(c, run + [a, b, d]) == At(s)
  {
    After(c, run, a, s0);
    After(c, run + [a], b, Apply(c, s0, a));
    After(c, run + [a] + [b], d, Apply(c, Apply(c, s0, a), b));
    assert run + [a] + [b] + [d] == run + [a, b, d];
    s := Apply(c, Apply(c, Apply(c, s0, a), b), d);
  }

  /** An accepted pong up to the check of the stop flag. */
  lemma AcceptSteps(c: Config, run: seq<Action>, s0: State, q: Pong) returns (s: State)
    requires Exec(c, run) == At(s0) && Enabled(c, s0, Deliver(q)) && AcceptsPong(s0.node, q.source, q.msg)
    ensures Exec(c, run + [Deliver(q), CountAccepted, HandlerCheck]) == At(s)
    ensures s == s0.(node := CountPong(TakePong(s0.node, q.source, q.msg, s0.now)),
                     log := s0.log + [Accept(q.source, q.msg, s0.now)],
                     handler := if !c.responseDriven || s0.stop then Waiting else Want)
  {
    s := ThreeMore(c, run, s0, Deliver(q), CountAccepted, HandlerCheck);
  }

  /** A ping sent by the handler while the send lock is free. */
  lemma SendUninterrupted(c: Config, run: seq<Action>, s0: State) returns (s: State)
    requires Exec(c, run) == At(s0) && s0.handler.Want? && !InLock(s0.sender)
    ensures Exec(c, run + SendSteps()) == At(s)
    ensures s == s0.(node := CountPing(TakeSeq(s0.node)), handler := Waiting,
                     sent := s0.sent + [PingFor(s0.node, s0.now, c.baggage)])
  {
    s := ThreeMore(c, run, s0, Begin(Handler), Publish(Handler), Count(Handler));
  }

  /** The step system refines into the handler: its steps, taken one after the other while the send lock is
      free, publish what PingMode.Handle publishes and leave the node as it leaves it. */
  lemma HandleUninterrupted(c: Config, run: seq<Action>, s0: State, q: Pong) returns (s: State)
    requires Exec(c, run) == At(s0) && Enabled(c, s0, Deliver(q)) && !InLock(s0.sender)
    ensures var accepted := AcceptsPong(s0.node, q.source, q.msg);
      var (node, pings) := Handled(s0.node, c.responseDriven, s0.stop, q.msg, q.source, s0.now, c.baggage);
      && Exec(c, run + HandleSteps(q, accepted, pings != [])) == At(s)
      && s == s0.(node := node, sent := s0.sent + pings,
                  log := s0.log + if accepted then [Accept(q.source, q.msg, s0.now)] else [])
  {
    if AcceptsPong(s0.node, q.source, q.msg) {
      s := AcceptSteps(c, run, s0, q);
      var steps := [Deliver(q), CountAccepted, HandlerCheck];
      if s.handler.Want? {
        assert run + steps + SendSteps() == run + HandleSteps(q, true, true);
        s := SendUninterrupted(c, run + steps, s);
      } else {
        assert run + steps == run + HandleSteps(q, true, false);
      }
    } else {
      After(c, run, Deliver(q), s0);
      s := s0;
    }
  }

  // ---------------------------------------------------------------- rounds

  /** Every ping thread is at rest. */
  predicate Quiet(s: State) {
    s.sender.Done? && s.handler.Waiting? && !s.stop
  }

  /** The bootstrap ping is out and counted, and nothing else has happened. */
  lemma Started(c: Config) returns (run: seq<Action>, s: State)
    requires c.responseDriven
    ensures Exec(c, run) == At(s) && Quiet(s) && s.log == [] && s.sent == [FirstPing(c)]
  {
    run, s := Bootstrap(c);
    After(c, run, Count(Sender), s);
    run, s := run + [Count(Sender)], Apply(c, s, Count(Sender));
  }

  /** Peer g echoes ping k, the handler accepts the pong and sends the next ping. */
  lemma Round(c: Config, before: seq<Action>, s0: State, g: Gid, k: nat) returns (run: seq<Action>, s: State)
    requires c.responseDriven && Exec(c, before) == At(s0) && Quiet(s0) && g in c.peers
    requires k < |s0.sent| && s0.sent[k].seqNo % 2 == 1
    requires AcceptsPong(s0.node, g, Echo(s0.sent[k]))
    ensures Exec(c, run) == At(s) && Quiet(s)
    ensures s.log == s0.log + [Accept(g, Echo(s0.sent[k]), s0.now)]
    ensures |s.sent| == |s0.sent| + 1
  {
    After(c, before, EchoPing(g, k), s0);
    var q := Pong(g, Echo(s0.sent[k]));
    var echoed := before + [EchoPing(g, k)];
    s := HandleUninterrupted(c, echoed, Apply(c, s0, EchoPing(g, k)), q);
    run := echoed + HandleSteps(q, true, true);
  }

  /** Peer g has been accepted n times, with the numbers 0, 2, 4, ... */
  ghost predicate HeardTo(log: seq<Accept>, g: Gid, n: nat) {
    |Heard(log, g)| == n && InLockstep(Heard(log, g))
  }

  lemma TrackHeardTo(p: Pongs, log: seq<Accept>, g: Gid, n: nat)
    requires LogMatches(p, log) && HeardTo(log, g, n)
    ensures g in p.tracks <==> n > 0
    ensures n > 0 ==> p.tracks[g].lastSeq == 2 * (n - 1)
  {
  }

  lemma NextIsAccepted(c: Config, s: State, g: Gid, n: nat)
    requires InvSend(c, s) && InvLog(c, s) && HeardTo(s.log, g, n) && n < |s.sent| && n < TWO_31
    ensures Echo(s.sent[n]).seqNo == 2 * n && s.sent[n].seqNo % 2 == 1
    ensures AcceptsPong(s.node, g, Echo(s.sent[n]))
  {
    PingNumber(c, s, n);
    TrackHeardTo(s.node.pongs, s.log, g, n);
    AcceptsNumber(s.node, g, Echo(s.sent[n]), n, n);
  }

  lemma PingNumber(c: Config, s: State, n: nat)
    requires InvSend(c, s) && n < |s.sent| && n < TWO_31
    ensures Echo(s.sent[n]).seqNo == 2 * n && s.sent[n].seqNo % 2 == 1
  {
    EchoNumber(c, s, n);
    ModBelow(n);
    assert IsPing(c, s.now, s.sent[n], n);
  }

  /** The peers in `todo` have answered n pings, the others one more. */
  ghost predicate Progress(c: Config, log: seq<Accept>, n: nat, todo: set<Gid>) {
    forall g :: g in c.peers ==> HeardTo(log, g, if g in todo then n else n + 1)
  }

  lemma ProgressStep(c: Config, log: seq<Accept>, n: nat, todo: set<Gid>, e: Accept)
    requires Progress(c, log, n, todo) && e.peer in todo && e.peer in c.peers && e.msg.seqNo == 2 * n
    ensures Progress(c, log + [e], n, todo - {e.peer})
  {
    forall g | g in c.peers ensures HeardTo(log + [e], g, if g in todo - {e.peer} then n else n + 1) {
      HeardAppend(log, e, g);
    }
  }

  /** A peer that has answered n pings answers the next one. */
  lemma Answer(c: Config, before: seq<Action>, s0: State, g: Gid, n: nat)
    returns (run: seq<Action>, s: State, e: Accept)
    requires c.responseDriven && Exec(c, before) == At(s0) && Quiet(s0) && g in c.peers
    requires n < |s0.sent| && n < TWO_31 && HeardTo(s0.log, g, n)
    ensures Exec(c, run) == At(s) && Quiet(s)
    ensures s.log == s0.log + [e] && e.peer == g && e.msg.seqNo == 2 * n
    ensures |s.sent| == |s0.sent| + 1
  {
    RunInvariant(c, before);
    NextIsAccepted(c, s0, g, n);
    run, s := Round(c, before, s0, g, n);
    e := Accept(g, Echo(s0.sent[n]), s0.now);
  }

  /** Every peer in `todo` answers ping n, one after the other; the others already have. */
  lemma {:induction false} AnswerAll(c: Config, before: seq<Action>, s0: State, n: nat, todo: set<Gid>)
    returns (run: seq<Action>, s: State)
    requires c.responseDriven && Exec(c, before) == At(s0) && Quiet(s0)
    requires n < |s0.sent| && n < TWO_31 && todo <= c.peers && Progress(c, s0.log, n, todo)
    ensures Exec(c, run) == At(s) && Quiet(s)
    ensures |s.log| == |s0.log| + |todo| && |s.sent| == |s0.sent| + |todo|
    ensures Progress(c, s.log, n, {})
    decreases |todo|
  {
    run, s := before, s0;
    if todo != {} {
      var g :| g in todo;
      var e;
      run, s, e := Answer(c, before, s0, g, n);
      ProgressStep(c, s0.log, n, todo, e);
      run, s := AnswerAll(c, run, s, n, todo - {g});
    } else {
      assert todo == {};
    }
  }

  /** The bounds of WrapBound are reached: for every n up to 2^31 and any number of peers there is a run in
      which every peer is accepted n times, with the numbers 0, 2, ..., 2n-2, and which has published one
      ping more than it accepted pongs. */
  lemma {:induction false} Reaches(c: Config, n: nat) returns (run: seq<Action>, s: State)
    requires c.responseDriven && n <= TWO_31
    ensures Exec(c, run) == At(s) && Quiet(s)
    ensures |s.log| == n * |c.peers| && |s.sent| == n * |c.peers| + 1
    ensures forall g :: g in c.peers ==> HeardTo(s.log, g, n)
  {
    if n == 0 {
      run, s := Started(c);
    } else {
      run, s := Reaches(c, n - 1);
      if c.peers != {} {
        EnoughPings(n - 1, |c.peers|);
      }
      run, s := OneRoundMore(c, run, s, n - 1, |s.log|);
      OneMore(n, n - 1, |c.peers|);
    }
  }

  lemma OneRoundMore(c: Config, before: seq<Action>, s0: State, n: nat, total: nat)
    returns (run: seq<Action>, s: State)
    requires c.responseDriven && Exec(c, before) == At(s0) && Quiet(s0) && n < TWO_31
    requires |s0.log| == total && |s0.sent| == total + 1 && (c.peers != {} ==> n <= total)
    requires forall g :: g in c.peers ==> HeardTo(s0.log, g, n)
    ensures Exec(c, run) == At(s) && Quiet(s)
    ensures |s.log| == total + |c.peers| && |s.sent| == total + |c.peers| + 1
    ensures forall g :: g in c.peers ==> HeardTo(s.log, g, n + 1)
  {
    run, s := before, s0;
    if c.peers != {} {
      run, s := NextAll(c, before, s0, n);
    }
  }

  lemma {:induction false} NextAll(c: Config, before: seq<Action>, s0: State, n: nat)
    returns (run: seq<Action>, s: State)
    requires c.responseDriven && Exec(c, before) == At(s0) && Quiet(s0)
    requires n < |s0.sent| && n < TWO_31 && forall g :: g in c.peers ==> HeardTo(s0.log, g, n)
    ensures Exec(c, run) == At(s) && Quiet(s)
    ensures |s.log| == |s0.log| + |c.peers| && |s.sent| == |s0.sent| + |c.peers|
    ensures forall g :: g in c.peers ==> HeardTo(s.log, g, n + 1)
  {
    run, s := AnswerAll(c, before, s0, n, c.peers);
    forall g | g in c.peers ensures HeardTo(s.log, g, n + 1) {
      assert g !in {};
    }
  }

  lemma EnoughPings(n: nat, peers: nat)
    requires peers > 0
    ensures n < n * peers + 1
  {
    Multiply(n, n, 1, peers);
  }

  /** One pong peer: every number of answered pings up to 2^31 does occur. */
  lemma LockstepReaches(c: Config, g: Gid, n: nat) returns (run: seq<Action>, s: State)
    requires OneToOne(c) && g in c.peers && n <= TWO_31
    ensures Exec(c, run) == At(s)
    ensures |s.log| == n && |s.sent| == n + 1
  {
    run, s := Reaches(c, n);
  }

  // ---------------------------------------------------------------- several peers: the exchange multiplies

  /** No accepted pong answers m. */
  predicate Unanswered(log: seq<Accept>, m: Uks) {
    forall e :: e in log ==> e.msg != Echo(m)
  }

  /** With n peers each answered ping starts n new ones. For every j there is a run in which each peer
      answered the first j pings and all later ones, (n-1)*j + 1 of them, are outstanding: with two or more
      peers the outstanding pings exceed any given number, as long as the counter does not wrap. */
  lemma OutstandingGrow(c: Config, j: nat) returns (run: seq<Action>, s: State)
    requires c.responseDriven && c.peers != {} && j * |c.peers| < TWO_31
    ensures Exec(c, run) == At(s)
    ensures |s.sent| == j * |c.peers| + 1 && |s.sent| - j == j * (|c.peers| - 1) + 1
    ensures forall k :: 0 <= k < |s.sent| ==> (Unanswered(s.log, s.sent[k]) <==> k >= j)
  {
    Surplus(j, |c.peers|);
    run, s := Reaches(c, j);
    FirstAnswered(c, run, s, j);
  }

  lemma Surplus(j: nat, n: nat)
    requires n > 0
    ensures j * n - j == j * (n - 1)
  {
  }

  lemma FirstAnswered(c: Config, run: seq<Action>, s: State, j: nat)
    requires Exec(c, run) == At(s) && c.peers != {} && |s.sent| <= TWO_31
    requires forall g :: g in c.peers ==> HeardTo(s.log, g, j)
    ensures forall k :: 0 <= k < |s.sent| ==> (Unanswered(s.log, s.sent[k]) <==> k >= j)
  {
    RunInvariant(c, run);
    forall k | 0 <= k < |s.sent| ensures Unanswered(s.log, s.sent[k]) <==> k >= j {
      AnsweredBelow(c, s, j, k);
    }
  }

  lemma AnsweredBelow(c: Config, s: State, j: nat, k: nat)
    requires InvSend(c, s) && InvLog(c, s) && c.peers != {} && k < |s.sent| <= TWO_31
    requires forall g :: g in c.peers ==> HeardTo(s.log, g, j)
    ensures Unanswered(s.log, s.sent[k]) <==> k >= j
  {
    if k < j {
      var g :| g in c.peers;
      AnsweredBy(c, s, g, j, k);
    } else {
      EchoNumber(c, s, k);
      ModBelow(k);
      forall e | e in s.log ensures e.msg != Echo(s.sent[k]) {
        assert HeardTo(s.log, e.peer, j);
        HeardBelow(s.log, e, j);
      }
    }
  }

  lemma AnsweredBy(c: Config, s: State, g: Gid, j: nat, k: nat)
    requires InvSend(c, s) && k < j && |s.sent| <= TWO_31 && HeardTo(s.log, g, j) && k < |s.sent|
    requires forall e :: e in s.log ==> EchoesSome(s.sent, e.msg)
    ensures !Unanswered(s.log, s.sent[k])
  {
    HeardIn(s.log, g, k);
    EchoIndex(c, s, Heard(s.log, g)[k].msg, k);
  }

  lemma EchoIndex(c: Config, s: State, m: Uks, k: nat)
    requires InvSend(c, s) && EchoesSome(s.sent, m) && |s.sent| <= TWO_31 && m.seqNo == 2 * k
    ensures k < |s.sent| && m == Echo(s.sent[k])
  {
    var i := EchoFacts(c, s, m);
    ModBelow(i);
  }

  lemma HeardBelow(log: seq<Accept>, e: Accept, j: nat)
    requires e in log && HeardTo(log, e.peer, j)
    ensures e.msg.seqNo < 2 * j
  {
    var x :| 0 <= x < |log| && log[x] == e;
    HeardHas(log, e.peer, x);
  }

  // ---------------------------------------------------------------- at most one ping outstanding

  predicate AtMostOneUnanswered(s: State) {
    forall i, j :: 0 <= i < j < |s.sent| ==> !(Unanswered(s.log, s.sent[i]) && Unanswered(s.log, s.sent[j]))
  }

  /** The i-th accepted pong echoes the i-th ping. */
  predicate AnsweredInOrder(sent: seq<Uks>, log: seq<Accept>) {
    |log| <= |sent| && forall i :: 0 <= i < |log| ==> log[i].msg == Echo(sent[i])
  }

  lemma InOrderStep(c: Config, s: State, a: Action)
    requires OneToOne(c) && Inv(c, s) && InLockstep(s.log) && AnsweredInOrder(s.sent, s.log) && Enabled(c, s, a)
    ensures AnsweredInOrder(Apply(c, s, a).sent, Apply(c, s, a).log)
  {
    if a.Deliver? && AcceptsPong(s.node, a.q.source, a.q.msg) {
      var k := EchoFacts(c, s, a.q.msg);
      LockstepAccepts(c, s, a.q, k);
    } else {
      LogOnlyByDelivery(c, s, a);
    }
  }

  lemma {:induction false} InOrderRun(c: Config, run: seq<Action>)
    requires OneToOne(c)
    ensures Exec(c, run).At? ==> AnsweredInOrder(Exec(c, run).state.sent, Exec(c, run).state.log)
  {
    if run != [] {
      var n := |run| - 1;
      InOrderRun(c, run[..n]);
      if Exec(c, run).At? {
        RunInvariant(c, run[..n]);
        LockstepRun(c, run[..n]);
        InOrderStep(c, Exec(c, run[..n]).state, run[n]);
      }
    }
  }

  lemma OneUnanswered(c: Config, run: seq<Action>, s: State)
    requires c.responseDriven && |c.peers| <= 1 && Exec(c, run) == At(s)
    ensures AtMostOneUnanswered(s)
  {
    WrapBound(c, run, s);
    if |c.peers| == 1 {
      Lockstep(c, run, s);
      InOrderRun(c, run);
      forall i | 0 <= i < |s.log| ensures !Unanswered(s.log, s.sent[i]) {
        assert s.log[i] in s.log;
      }
    }
  }

  /** Two peers answer the first ping. */
  lemma TwoAnswers(c: Config, g: Gid, h: Gid) returns (run: seq<Action>, s: State)
    requires c.responseDriven && g in c.peers && h in c.peers && g != h
    ensures Exec(c, run) == At(s) && |s.sent| == 3 && forall e :: e in s.log ==> e.msg.seqNo == 0
  {
    var run0, s0 := Started(c);
    var run1, s1, d := Answer(c, run0, s0, g, 0);
    UnheardStill(d, g, h);
    var e;
    run, s, e := Answer(c, run1, s1, h, 0);
    assert s1.log == [d] && s.log == [d, e];
  }

  lemma UnheardStill(d: Accept, g: Gid, h: Gid)
    requires d.peer == g && g != h
    ensures HeardTo([d], h, 0)
  {
    HeardAppend([], d, h);
    assert [] + [d] == [d];
  }

  lemma OtherNumber(log: seq<Accept>, m: Uks)
    requires Echo(m).seqNo > 0 && forall e :: e in log ==> e.msg.seqNo == 0
    ensures Unanswered(log, m)
  {
  }

  /** Then two pings are outstanding. */
  lemma TwoUnanswered(c: Config, g: Gid, h: Gid) returns (run: seq<Action>, s: State)
    requires c.responseDriven && g in c.peers && h in c.peers && g != h
    ensures Exec(c, run) == At(s) && !AtMostOneUnanswered(s)
  {
    run, s := TwoAnswers(c, g, h);
    RunInvariant(c, run);
    PingNumber(c, s, 1);
    PingNumber(c, s, 2);
    OtherNumber(s.log, s.sent[1]);
    OtherNumber(s.log, s.sent[2]);
  }

  /** In response-driven mode never more than one ping is outstanding if and only if there is at most one
      pong peer. */
  lemma OneOutstandingExactly(c: Config)
    requires c.responseDriven
    ensures (forall run :: Exec(c, run).At? ==> AtMostOneUnanswered(Exec(c, run).state)) <==> |c.peers| <= 1
  {
    if |c.peers| <= 1 {
      forall run | Exec(c, run).At? ensures AtMostOneUnanswered(Exec(c, run).state) {
        OneUnanswered(c, run, Exec(c, run).state);
      }
    } else {
      var g :| g in c.peers;
      assert |c.peers - {g}| == |c.peers| - 1;
      var h :| h in c.peers - {g};
      var run, s := TwoUnanswered(c, g, h);
    }
  }
}
