/** The ping/pong exchange as a step system.

    One ping node and any number of pong nodes run concurrently. In the ping node the sender thread,
    the (serial) message handler and the periodic tick interleave at the grain of their atomic actions:
    taking a sequence number under the send lock, publishing, counting the ping, accepting a pong,
    counting it, and the tick's two counter loads, pongs before pings, and its window snapshot.

    The network keeps everything ever published. A message may be delivered at any later time, any
    number of times and in any order, or never: loss, duplication, reordering and delay are all the
    absence, repetition or placement of a delivery step. */
module PingPong {
  import opened PingNode
  import opened PongPeers
  import opened Report
  import opened Sorting
  import opened Stats
  import opened Wire

  /** responseDriven is rate_hz == 0; otherwise the sender thread sends on a timer. */
  datatype Config = Config(responseDriven: bool, baggage: seq<bv8>, peers: set<Gid>, start: nat)

  datatype Thread = Sender | Handler

  /** Where a thread of the ping node is. Hold and Out lie inside the send lock. */
  datatype Pc =
    | Waiting                // the sender sleeps, the handler is idle
    | Accepted               // a pong was accepted and is not counted yet
    | Counted                // it is counted, the stop flag is not checked yet
    | Want                   // about to take the send lock
    | Hold(ping: Uks)        // holds the lock and has built the ping
    | Out                    // has published it and not counted it
    | Done                   // the sender thread has returned

  datatype TickPc = Idle | LoadedPongs(pongs: nat) | LoadedBoth(pongs: nat, pings: nat)

  /** A message on the pong topic, with the GID of its publisher. */
  datatype Pong = Pong(source: Gid, msg: Uks)

  /** An accepted pong and the time at which the handler looked at the clock. */
  datatype Accept = Accept(peer: Gid, msg: Uks, at: nat)

  /** The counter values one tick worked with, and how many peers were known by then. */
  datatype Obs = Obs(pongs: nat, pings: nat, peers: nat)

  datatype State = State(
    now: nat, stop: bool, node: Node, sender: Pc, handler: Pc, tick: TickPc,
    sent: seq<Uks>, echoed: set<Pong>, log: seq<Accept>, ticks: seq<Obs>)

  function Initial(c: Config): State {
    State(c.start, false, FRESH_NODE, Waiting, Waiting, Idle, [], {}, [], [])
  }

  datatype Action =
    | Advance(dt: nat)
    | Stop
    | SenderWake
    | Begin(t: Thread)
    | Publish(t: Thread)
    | Count(t: Thread)
    | EchoPing(peer: Gid, k: nat)
    | Deliver(q: Pong)
    | CountAccepted
    | HandlerCheck
    | LoadPongs
    | LoadPings
    | FinishTick

  function PcOf(s: State, t: Thread): Pc {
    if t.Sender? then s.sender else s.handler
  }

  function SetPc(s: State, t: Thread, pc: Pc): State {
    if t.Sender? then s.(sender := pc) else s.(handler := pc)
  }

  predicate InLock(pc: Pc) { pc.Hold? || pc.Out? }

  ghost predicate Enabled(c: Config, s: State, a: Action) {
    match a
    case Advance(_) => true
    case Stop => true
    case SenderWake => s.sender.Waiting?
    case Begin(t) => PcOf(s, t).Want? && !InLock(s.sender) && !InLock(s.handler)
    case Publish(t) => PcOf(s, t).Hold?
    case Count(t) => PcOf(s, t).Out?
    case EchoPing(peer, k) => peer in c.peers && k < |s.sent|
    case Deliver(q) => s.handler.Waiting? && q in s.echoed
    case CountAccepted => s.handler.Accepted?
    case HandlerCheck => s.handler.Counted?
    case LoadPongs => s.tick.Idle?
    case LoadPings => s.tick.LoadedPongs?
    case FinishTick => s.tick.LoadedBoth? && s.node.lastPongs <= s.tick.pongs && s.node.lastPings <= s.tick.pings
  }

  ghost function Apply(c: Config, s: State, a: Action): State
    requires Enabled(c, s, a)
  {
    match a
    case Advance(dt) => s.(now := s.now + dt)
    case Stop => s.(stop := true)
    case SenderWake => s.(sender := if s.stop then Done else Want)
    case Begin(t) => SetPc(s, t, Hold(PingFor(s.node, s.now, c.baggage))).(node := TakeSeq(s.node))
    case Publish(t) => SetPc(s, t, Out).(sent := s.sent + [PcOf(s, t).ping])
    case Count(t) =>
      SetPc(s, t, if t.Sender? && c.responseDriven then Done else Waiting).(node := CountPing(s.node))
    case EchoPing(peer, k) =>
      if s.sent[k].seqNo % 2 == 0 then s else s.(echoed := s.echoed + {Pong(peer, Echo(s.sent[k]))})
    case Deliver(q) =>
      if AcceptsPong(s.node, q.source, q.msg) then
        s.(node := TakePong(s.node, q.source, q.msg, s.now), handler := Accepted,
           log := s.log + [Accept(q.source, q.msg, s.now)])
      else s
    case CountAccepted => s.(node := CountPong(s.node), handler := Counted)
    case HandlerCheck => s.(handler := if !c.responseDriven || s.stop then Waiting else Want)
    case LoadPongs => s.(tick := LoadedPongs(s.node.pongsTotal))
    case LoadPings => s.(tick := LoadedBoth(s.tick.pongs, s.node.pings))
    case FinishTick =>
      s.(node := TickUpdate(s.node, 1.0, s.tick.pongs, s.tick.pings), tick := Idle,
         ticks := s.ticks + [Obs(s.tick.pongs, s.tick.pings, |s.node.pongs.order|)])
  }

  /** The state after a run, if every action was enabled when it was taken. */
  datatype Outcome = Stuck | At(state: State)

  ghost function Exec(c: Config, run: seq<Action>): Outcome {
    if run == [] then At(Initial(c))
    else
      var n := |run| - 1;
      match Exec(c, run[..n])
      case Stuck => Stuck
      case At(s) => if Enabled(c, s, run[n]) then At(Apply(c, s, run[n])) else Stuck
  }

  // ---------------------------------------------------------------- invariants of the sending side

  /** m is the k-th ping of the run. */
  predicate IsPing(c: Config, now: nat, m: Uks, k: nat) {
    m.seqNo == 2 * (k % TWO_31) + 1 && m.stamp <= now && m.baggage == c.baggage
  }

  function Held(s: State): nat { if s.sender.Hold? || s.handler.Hold? then 1 else 0 }

  function Uncounted(s: State): nat { if s.sender.Out? || s.handler.Out? then 1 else 0 }

  /** The lock is exclusive, the published pings are numbered in order, and at most one is uncounted. */
  ghost predicate InvSend(c: Config, s: State) {
    && !(InLock(s.sender) && InLock(s.handler))
    && (forall k :: 0 <= k < |s.sent| ==> IsPing(c, s.now, s.sent[k], k))
    && (s.sender.Hold? ==> IsPing(c, s.now, s.sender.ping, |s.sent|))
    && (s.handler.Hold? ==> IsPing(c, s.now, s.handler.ping, |s.sent|))
    && s.node.nextSeq == (|s.sent| + Held(s)) % TWO_32
    && s.node.pings + Uncounted(s) == |s.sent|
  }

  lemma SendStep(c: Config, s: State, a: Action)
    requires InvSend(c, s) && Enabled(c, s, a)
    ensures InvSend(c, Apply(c, s, a))
  {
    match a
    case Begin(t) => BeginStep(c, s, t);
    case Publish(t) => PublishStep(c, s, t);
    case _ =>
  }

  lemma NextSeqSteps(n: nat)
    ensures (n % TWO_32 + 1) % TWO_32 == (n + 1) % TWO_32
  {
  }

  lemma BeginStep(c: Config, s: State, t: Thread)
    requires InvSend(c, s) && Enabled(c, s, Begin(t))
    ensures InvSend(c, Apply(c, s, Begin(t)))
  {
    EchoOfPing(|s.sent|);
    NextSeqSteps(|s.sent|);
  }

  lemma PublishStep(c: Config, s: State, t: Thread)
    requires InvSend(c, s) && Enabled(c, s, Publish(t))
    ensures InvSend(c, Apply(c, s, Publish(t)))
  {
  }

  // ---------------------------------------------------------------- invariants of the echoed pongs

  /** m is the echo of some published ping. */
  ghost predicate EchoesSome(sent: seq<Uks>, m: Uks) {
    exists k :: 0 <= k < |sent| && m == Echo(sent[k])
  }

  ghost predicate InvNet(c: Config, s: State) {
    forall q :: q in s.echoed ==> q.source in c.peers && EchoesSome(s.sent, q.msg)
  }

  lemma EchoesMore(sent: seq<Uks>, more: seq<Uks>, m: Uks)
    requires EchoesSome(sent, m)
    ensures EchoesSome(sent + more, m)
  {
    var k :| 0 <= k < |sent| && m == Echo(sent[k]);
    assert (sent + more)[k] == sent[k];
  }

  lemma NetStep(c: Config, s: State, a: Action)
    requires InvNet(c, s) && Enabled(c, s, a)
    ensures InvNet(c, Apply(c, s, a))
  {
    var s' := Apply(c, s, a);
    forall q | q in s'.echoed ensures q.source in c.peers && EchoesSome(s'.sent, q.msg) {
      if q in s.echoed {
        if a.Publish? {
          EchoesMore(s.sent, [PcOf(s, a.t).ping], q.msg);
        }
      } else {
        assert a.EchoPing? && q.msg == Echo(s.sent[a.k]);
      }
    }
  }

  // ---------------------------------------------------------------- invariants of the accepting side

  /** The pongs accepted from one peer, in order. */
  function Heard(log: seq<Accept>, g: Gid): seq<Accept> {
    if log == [] then []
    else Heard(log[..|log| - 1], g) + if log[|log| - 1].peer == g then [log[|log| - 1]] else []
  }

  function SeqNoOf(e: Accept): int { e.msg.seqNo }

  /** The latency samples of some accepted pongs. */
  function Samples(es: seq<Accept>): seq<int> {
    if es == [] then [] else Samples(es[..|es| - 1]) + [Rtt(es[|es| - 1].at, es[|es| - 1].msg.stamp)]
  }

  lemma HeardAppend(log: seq<Accept>, e: Accept, g: Gid)
    ensures Heard(log + [e], g) == if e.peer == g then Heard(log, g) + [e] else Heard(log, g)
  {
    assert (log + [e])[..|log|] == log;
  }

  /** A peer's track agrees with what was accepted from it. */
  ghost predicate TrackMatches(t: PongTrack, h: seq<Accept>) {
    && h != []
    && t.lastSeq == h[|h| - 1].msg.seqNo
    && StrictlyAscending(h, SeqNoOf)
    && t.lat.total == Take(Samples(h), DEFAULT_CAP)
  }

  ghost predicate GoodAccept(c: Config, s: State, e: Accept) {
    e.peer in c.peers && EchoesSome(s.sent, e.msg) && e.msg.stamp <= e.at <= s.now
  }

  /** The registry agrees with the whole log. */
  ghost predicate LogMatches(p: Pongs, log: seq<Accept>) {
    && ValidPongs(p)
    && (forall g :: g !in p.tracks ==> Heard(log, g) == [])
    && (forall g :: g in p.tracks ==> TrackMatches(p.tracks[g], Heard(log, g)))
  }

  ghost predicate InvLog(c: Config, s: State) {
    && LogMatches(s.node.pongs, s.log)
    && (forall e :: e in s.log ==> GoodAccept(c, s, e))
    && s.node.pongsTotal + (if s.handler.Accepted? then 1 else 0) == |s.log|
  }

  /** An echo is even, below 2^32, and carries the stamp and the baggage of its ping unchanged. */
  lemma EchoFacts(c: Config, s: State, m: Uks) returns (k: nat)
    requires InvSend(c, s) && EchoesSome(s.sent, m)
    ensures k < |s.sent| && m == Echo(s.sent[k])
    ensures m.seqNo == 2 * (k % TWO_31) && m.seqNo < TWO_32
    ensures m.stamp == s.sent[k].stamp && m.stamp <= s.now && m.baggage == c.baggage
  {
    k :| 0 <= k < |s.sent| && m == Echo(s.sent[k]);
    assert IsPing(c, s.now, s.sent[k], k);
    MaskOdd(k % TWO_31);
  }

  lemma EchoNumber(c: Config, s: State, k: nat)
    requires InvSend(c, s) && k < |s.sent|
    ensures Echo(s.sent[k]).seqNo == 2 * (k % TWO_31)
  {
    assert IsPing(c, s.now, s.sent[k], k);
    MaskOdd(k % TWO_31);
  }

  lemma AcceptExtends(t: PongTrack, h: seq<Accept>, e: Accept)
    requires TrackMatches(t, h) && SeqNoOf(h[|h| - 1]) < SeqNoOf(e) && e.msg.stamp <= e.at
    ensures var rtt := Rtt(e.at, e.msg.stamp);
      TrackMatches(t.(lastSeq := e.msg.seqNo, lat := AddSample(t.lat, DEFAULT_CAPS, rtt)), h + [e])
  {
    assert (h + [e])[..|h|] == h;
    forall i, j | 0 <= i < j < |h + [e]| ensures SeqNoOf((h + [e])[i]) < SeqNoOf((h + [e])[j]) {
      assert i < |h| - 1 ==> SeqNoOf(h[i]) < SeqNoOf(h[|h| - 1]);
    }
  }

  lemma FirstAccept(id: nat, e: Accept)
    requires e.msg.stamp <= e.at
    ensures TrackMatches(PongTrack(id, e.msg.seqNo, AddSample(NO_SAMPLES, DEFAULT_CAPS, Rtt(e.at, e.msg.stamp))), [e])
  {
    assert [e][..0] == [];
  }

  /** Taking one acceptable pong into both the registry and the log keeps them in agreement. */
  lemma AcceptStep(p: Pongs, log: seq<Accept>, e: Accept)
    requires LogMatches(p, log) && Accepts(p, e.peer, e.msg.seqNo) && e.msg.stamp <= e.at
    requires e.msg.seqNo < TWO_32 && forall x :: x in log ==> x.msg.seqNo < TWO_32
    ensures LogMatches(OnPong(p, e.peer, e.msg.seqNo, Rtt(e.at, e.msg.stamp)), log + [e])
  {
    OnPongValid(p, e.peer, e.msg.seqNo, Rtt(e.at, e.msg.stamp));
    var p' := OnPong(p, e.peer, e.msg.seqNo, Rtt(e.at, e.msg.stamp));
    forall g ensures g !in p'.tracks ==> Heard(log + [e], g) == []
    ensures g in p'.tracks ==> TrackMatches(p'.tracks[g], Heard(log + [e], g))
    {
      HeardAppend(log, e, g);
      if g == e.peer {
        TrackStep(p, log, e);
      }
    }
  }

  lemma TrackStep(p: Pongs, log: seq<Accept>, e: Accept)
    requires LogMatches(p, log) && Accepts(p, e.peer, e.msg.seqNo) && e.msg.stamp <= e.at
    requires e.msg.seqNo < TWO_32 && forall x :: x in log ==> x.msg.seqNo < TWO_32
    ensures TrackMatches(OnPong(p, e.peer, e.msg.seqNo, Rtt(e.at, e.msg.stamp)).tracks[e.peer],
                         Heard(log, e.peer) + [e])
  {
    if e.peer in p.tracks {
      var h := Heard(log, e.peer);
      HeardIn(log, e.peer, |h| - 1);
      AcceptExtends(p.tracks[e.peer], h, e);
    } else {
      FirstAccept(|p.order| + 1, e);
    }
  }

  lemma LogBelowWrap(c: Config, s: State)
    requires InvSend(c, s) && InvLog(c, s)
    ensures forall x :: x in s.log ==> x.msg.seqNo < TWO_32
  {
    forall x | x in s.log ensures x.msg.seqNo < TWO_32 {
      var k := EchoFacts(c, s, x.msg);
    }
  }

  lemma DeliverStep(c: Config, s: State, q: Pong)
    requires InvSend(c, s) && InvNet(c, s) && InvLog(c, s) && Enabled(c, s, Deliver(q))
    ensures InvLog(c, Apply(c, s, Deliver(q)))
  {
    if AcceptsPong(s.node, q.source, q.msg) {
      var e := Accept(q.source, q.msg, s.now);
      var k := EchoFacts(c, s, q.msg);
      LogBelowWrap(c, s);
      AcceptStep(s.node.pongs, s.log, e);
      var s' := Apply(c, s, Deliver(q));
      assert s'.log == s.log + [e];
      assert s'.node.pongs == OnPong(s.node.pongs, q.source, q.msg.seqNo, Rtt(s.now, q.msg.stamp));
      GoodAccepts(c, s, s', e);
    }
  }

  lemma GoodAccepts(c: Config, s: State, s': State, e: Accept)
    requires forall x :: x in s.log ==> GoodAccept(c, s, x)
    requires GoodAccept(c, s, e) && s'.log == s.log + [e] && s'.sent == s.sent && s'.now == s.now
    ensures forall x :: x in s'.log ==> GoodAccept(c, s', x)
  {
  }

  lemma {:induction false} HeardIn(log: seq<Accept>, g: Gid, i: nat)
    requires i < |Heard(log, g)|
    ensures Heard(log, g)[i] in log && Heard(log, g)[i].peer == g
  {
    var n := |log| - 1;
    assert log[n] in log && forall e :: e in log[..n] ==> e in log;
    if i < |Heard(log[..n], g)| {
      HeardIn(log[..n], g, i);
    }
  }

  lemma SnapshotKeepsTracks(p: Pongs, log: seq<Accept>)
    requires LogMatches(p, log)
    ensures LogMatches(AfterSnapshot(p, TickReset), log)
  {
    AfterSnapshotValid(p, TickReset);
  }

  lemma LogStep(c: Config, s: State, a: Action)
    requires InvSend(c, s) && InvNet(c, s) && InvLog(c, s) && Enabled(c, s, a)
    ensures InvLog(c, Apply(c, s, a))
  {
    var s' := Apply(c, s, a);
    if a.Deliver? {
      DeliverStep(c, s, a.q);
    } else {
      if a.FinishTick? {
        SnapshotKeepsTracks(s.node.pongs, s.log);
      }
      forall e | e in s'.log ensures GoodAccept(c, s', e) {
        if a.Publish? {
          EchoesMore(s.sent, [PcOf(s, a.t).ping], e.msg);
        }
      }
    }
  }

  // ---------------------------------------------------------------- the response-driven token

  /** Pings that a thread is already committed to send. */
  function Committed(s: State): nat {
    (if s.sender.Waiting? || s.sender.Want? || s.sender.Hold? then 1 else 0)
    + (if s.handler.Accepted? || s.handler.Counted? || s.handler.Want? || s.handler.Hold? then 1 else 0)
  }

  /** In response-driven mode the bootstrap and each accepted pong pay for one ping. */
  ghost predicate InvToken(c: Config, s: State) {
    && (c.responseDriven ==> |s.sent| + Committed(s) <= 1 + |s.log|)
    && !s.sender.Accepted? && !s.sender.Counted? && !s.handler.Done?
  }

  lemma TokenStep(c: Config, s: State, a: Action)
    requires InvToken(c, s) && Enabled(c, s, a)
    ensures InvToken(c, Apply(c, s, a))
  {
  }

  // ---------------------------------------------------------------- counting accepted pongs

  predicate AllEven(h: seq<Accept>) {
    forall j :: 0 <= j < |h| ==> h[j].msg.seqNo % 2 == 0 && h[j].msg.seqNo < TWO_32
  }

  /** Strictly ascending even numbers grow at least as fast as 0, 2, 4, ... */
  lemma {:induction false} EvenAscending(h: seq<Accept>, i: nat)
    requires StrictlyAscending(h, SeqNoOf) && i < |h| && AllEven(h)
    ensures SeqNoOf(h[i]) >= 2 * i
  {
    if i > 0 {
      EvenAscending(h, i - 1);
      assert SeqNoOf(h[i - 1]) < SeqNoOf(h[i]);
    }
  }

  lemma HeardEven(c: Config, s: State, g: Gid)
    requires InvSend(c, s) && InvLog(c, s)
    ensures AllEven(Heard(s.log, g))
    ensures Heard(s.log, g) != [] ==> g in s.node.pongs.tracks && StrictlyAscending(Heard(s.log, g), SeqNoOf)
  {
    var h := Heard(s.log, g);
    forall j | 0 <= j < |h| ensures h[j].msg.seqNo % 2 == 0 && h[j].msg.seqNo < TWO_32 {
      HeardIn(s.log, g, j);
      var k := EchoFacts(c, s, h[j].msg);
    }
  }

  /** One peer is accepted at most once per published ping, and at most 2^31 times ever. */
  lemma PeerBound(c: Config, s: State, g: Gid)
    requires InvSend(c, s) && InvLog(c, s)
    ensures |Heard(s.log, g)| <= |s.sent| && |Heard(s.log, g)| <= TWO_31
  {
    var h := Heard(s.log, g);
    if h != [] {
      HeardEven(c, s, g);
      var n := |h| - 1;
      HeardIn(s.log, g, n);
      var k := EchoFacts(c, s, h[n].msg);
      assert g in s.node.pongs.tracks;
      EvenAscending(h, n);
      ModBelow(k);
    }
  }

  function NotFrom(log: seq<Accept>, g: Gid): seq<Accept> {
    if log == [] then []
    else NotFrom(log[..|log| - 1], g) + if log[|log| - 1].peer == g then [] else [log[|log| - 1]]
  }

  lemma {:induction false} SplitByPeer(log: seq<Accept>, g: Gid)
    ensures |log| == |Heard(log, g)| + |NotFrom(log, g)|
    ensures forall e :: e in NotFrom(log, g) ==> e in log && e.peer != g
  {
    if log != [] {
      var n := |log| - 1;
      SplitByPeer(log[..n], g);
      assert forall e :: e in log[..n] ==> e in log;
    }
  }

  lemma {:induction false} HeardOfRest(log: seq<Accept>, g: Gid, h: Gid)
    requires g != h
    ensures Heard(NotFrom(log, g), h) == Heard(log, h)
  {
    if log != [] {
      var n := |log| - 1;
      HeardOfRest(log[..n], g, h);
      if log[n].peer != g {
        HeardAppend(NotFrom(log[..n], g), log[n], h);
      } else {
        assert NotFrom(log, g) == NotFrom(log[..n], g);
        assert Heard(log, h) == Heard(log[..n], h);
      }
    }
  }

  /** If every accept comes from a peer in `peers`, at most b from each, there are at most |peers|*b. */
  lemma {:induction false} SumOverPeers(log: seq<Accept>, peers: set<Gid>, b: nat)
    requires forall e :: e in log ==> e.peer in peers
    requires forall g :: g in peers ==> |Heard(log, g)| <= b
    ensures |log| <= |peers| * b
    decreases |peers|
  {
    if log == [] {
      Multiply(0, |peers|, 0, b);
    } else {
      assert log[0] in log;
      var g := log[0].peer;
      var rest := peers - {g};
      forall h | h in rest
        ensures |Heard(NotFrom(log, g), h)| <= b
      {
        HeardOfRest(log, g, h);
      }
      SplitByPeer(log, g);
      SumOverPeers(NotFrom(log, g), rest, b);
      OneMore(|peers|, |rest|, b);
    }
  }

  lemma OneMore(n: nat, m: nat, b: nat)
    requires n == m + 1
    ensures n * b == m * b + b
  {
  }

  lemma ModBelow(k: nat)
    ensures k % TWO_31 <= k && (k < TWO_31 ==> k % TWO_31 == k)
  {
  }

  lemma AcceptedFromKnown(c: Config, s: State)
    requires InvLog(c, s)
    ensures forall e :: e in s.log ==> e.peer in s.node.pongs.tracks
  {
    forall e | e in s.log ensures e.peer in s.node.pongs.tracks {
      var i :| 0 <= i < |s.log| && s.log[i] == e;
      HeardNonEmpty(s.log, i);
    }
  }

  lemma {:induction false} HeardNonEmpty(log: seq<Accept>, i: nat)
    requires i < |log|
    ensures Heard(log, log[i].peer) != []
  {
    if i < |log| - 1 {
      HeardNonEmpty(log[..|log| - 1], i);
    }
  }

  lemma {:induction false} OrderIsKeys(order: seq<Gid>, keys: set<Gid>)
    requires Distinct(order) && forall g :: g in order <==> g in keys
    ensures |order| == |keys|
  {
    if order == [] {
      assert keys == {};
    } else {
      var n := |order| - 1;
      var g := order[n];
      assert g in order;
      forall h ensures h in order[..n] <==> h in keys - {g} {
        if h in order[..n] {
          assert h in order;
        }
      }
      OrderIsKeys(order[..n], keys - {g});
    }
  }

  /** Total accepted pongs against known peers and published pings. */
  lemma TotalBound(c: Config, s: State)
    requires InvSend(c, s) && InvLog(c, s)
    ensures |s.log| <= |s.node.pongs.order| * |s.sent|
    ensures |s.log| <= |s.node.pongs.order| * TWO_31
    ensures |s.node.pongs.order| <= |c.peers|
  {
    var keys := s.node.pongs.tracks.Keys;
    AcceptedFromKnown(c, s);
    OrderIsKeys(s.node.pongs.order, keys);
    forall g | g in keys ensures |Heard(s.log, g)| <= |s.sent| && |Heard(s.log, g)| <= TWO_31 {
      PeerBound(c, s, g);
    }
    SumOverPeers(s.log, keys, |s.sent|);
    SumOverPeers(s.log, keys, TWO_31);
    forall g | g in keys ensures g in c.peers {
      HeardIn(s.log, g, 0);
    }
    SubsetSize(keys, c.peers);
  }

  lemma {:induction false} SubsetSize(a: set<Gid>, b: set<Gid>)
    requires a <= b
    ensures |a| <= |b|
    decreases |a|
  {
    if a != {} {
      var x :| x in a;
      SubsetSize(a - {x}, b - {x});
    }
  }

  // ---------------------------------------------------------------- the tick

  function Last(ticks: seq<Obs>): Obs {
    if ticks == [] then Obs(0, 0, 0) else ticks[|ticks| - 1]
  }

  /** The pings of the last interval that its pongs do not cover. */
  function IntervalLoss(ticks: seq<Obs>): nat
    requires ticks != []
  {
    var now, before := Last(ticks), Last(ticks[..|ticks| - 1]);
    Excess(now.pings - before.pings, now.pongs - before.pongs)
  }

  function LossOver(ticks: seq<Obs>): nat {
    if ticks == [] then 0 else LossOver(ticks[..|ticks| - 1]) + IntervalLoss(ticks)
  }

  predicate Covered(pongs: nat, peers: nat, pings: nat) {
    pongs <= peers * (pings + 1)
  }

  ghost predicate InvTick(c: Config, s: State) {
    && s.node.lastPongs == Last(s.ticks).pongs <= s.node.pongsTotal
    && s.node.lastPings == Last(s.ticks).pings <= s.node.pings
    && s.node.lostTotal == LossOver(s.ticks)
    && (s.tick.LoadedPongs? ==>
          && s.node.lastPongs <= s.tick.pongs <= s.node.pongsTotal
          && Covered(s.tick.pongs, |s.node.pongs.order|, s.node.pings))
    && (s.tick.LoadedBoth? ==>
          && s.node.lastPongs <= s.tick.pongs <= s.node.pongsTotal
          && s.node.lastPings <= s.tick.pings <= s.node.pings
          && Covered(s.tick.pongs, |s.node.pongs.order|, s.tick.pings))
    && forall i :: 0 <= i < |s.ticks| ==>
         s.ticks[i].peers <= |s.node.pongs.order| && Covered(s.ticks[i].pongs, s.ticks[i].peers, s.ticks[i].pings)
  }

  lemma CoveredGrows(pongs: nat, peers: nat, pings: nat, peers': nat, pings': nat)
    requires Covered(pongs, peers, pings) && peers <= peers' && pings <= pings'
    ensures Covered(pongs, peers', pings')
  {
    Multiply(peers, peers', pings + 1, pings' + 1);
  }

  lemma Multiply(a: nat, a': nat, b: nat, b': nat)
    requires a <= a' && b <= b'
    ensures a * b <= a' * b'
  {
    assert a' * b' == a * b + a * (b' - b) + (a' - a) * b';
  }

  /** All pongs counted when the tick loads them belong to published pings, of which one may be uncounted. */
  lemma LoadPongsCovered(c: Config, s: State)
    requires InvSend(c, s) && InvLog(c, s)
    ensures Covered(s.node.pongsTotal, |s.node.pongs.order|, s.node.pings)
  {
    TotalBound(c, s);
    Multiply(|s.node.pongs.order|, |s.node.pongs.order|, |s.sent|, s.node.pings + 1);
  }

  lemma CountersGrow(c: Config, s: State, a: Action)
    requires Enabled(c, s, a)
    ensures var s' := Apply(c, s, a);
      && |s.node.pongs.order| <= |s'.node.pongs.order|
      && s.node.pings <= s'.node.pings && s.node.pongsTotal <= s'.node.pongsTotal
  {
  }

  lemma FinishTickStep(c: Config, s: State)
    requires InvTick(c, s) && Enabled(c, s, FinishTick)
    ensures InvTick(c, Apply(c, s, FinishTick))
  {
    UnitTickLoss(s.node, s.tick.pongs, s.tick.pings);
    var s' := Apply(c, s, FinishTick);
    assert s'.ticks[..|s.ticks|] == s.ticks;
  }

  lemma TickStep(c: Config, s: State, a: Action)
    requires InvSend(c, s) && InvLog(c, s) && InvTick(c, s) && Enabled(c, s, a)
    ensures InvTick(c, Apply(c, s, a))
  {
    if a.FinishTick? {
      FinishTickStep(c, s);
    } else {
      CountersGrow(c, s, a);
      if a.LoadPongs? {
        LoadPongsCovered(c, s);
      } else if s.tick.LoadedPongs? {
        var s' := Apply(c, s, a);
        CoveredGrows(s.tick.pongs, |s.node.pongs.order|, s.node.pings, |s'.node.pongs.order|, s'.node.pings);
      } else if s.tick.LoadedBoth? {
        var s' := Apply(c, s, a);
        CoveredGrows(s.tick.pongs, |s.node.pongs.order|, s.tick.pings, |s'.node.pongs.order|, s.tick.pings);
      }
    }
  }

  // ---------------------------------------------------------------- every run

  /** What holds in every reachable state, whatever the network and the scheduler do. */
  ghost predicate Inv(c: Config, s: State) {
    InvSend(c, s) && InvNet(c, s) && InvLog(c, s) && InvToken(c, s) && InvTick(c, s)
  }

  lemma Step(c: Config, s: State, a: Action)
    requires Inv(c, s) && Enabled(c, s, a)
    ensures Inv(c, Apply(c, s, a))
  {
    SendStep(c, s, a);
    NetStep(c, s, a);
    LogStep(c, s, a);
    TokenStep(c, s, a);
    TickStep(c, s, a);
  }

  lemma {:induction false} RunInvariant(c: Config, run: seq<Action>)
    ensures Exec(c, run).At? ==> Inv(c, Exec(c, run).state)
  {
    if run != [] {
      var n := |run| - 1;
      RunInvariant(c, run[..n]);
      if Exec(c, run).At? {
        Step(c, Exec(c, run[..n]).state, run[n]);
      }
    }
  }

  // ---------------------------------------------------------------- what every run guarantees

  /** Every tick of every run: with n peers known it sees at most n*(pings+1) pongs,
      hence with one pong peer at most one more pong than pings. */
  lemma TickObservesBoundedPongs(c: Config, run: seq<Action>, s: State, i: nat)
    requires Exec(c, run) == At(s) && i < |s.ticks|
    ensures var o := s.ticks[i];
      && o.pongs <= o.peers * (o.pings + 1)
      && o.pongs <= |c.peers| * (o.pings + 1)
      && (|c.peers| <= 1 ==> o.pongs <= o.pings + 1)
  {
    RunInvariant(c, run);
    TickBound(c, s, i);
  }

  lemma TickBound(c: Config, s: State, i: nat)
    requires InvSend(c, s) && InvLog(c, s) && InvTick(c, s) && i < |s.ticks|
    ensures var o := s.ticks[i];
      && o.pongs <= o.peers * (o.pings + 1)
      && o.pongs <= |c.peers| * (o.pings + 1)
      && (|c.peers| <= 1 ==> o.pongs <= o.pings + 1)
  {
    ObservationBound(c, s, s.ticks[i]);
  }

  lemma ObservationBound(c: Config, s: State, o: Obs)
    requires InvSend(c, s) && InvLog(c, s)
    requires o.peers <= |s.node.pongs.order| && Covered(o.pongs, o.peers, o.pings)
    ensures o.pongs <= |c.peers| * (o.pings + 1)
    ensures |c.peers| <= 1 ==> o.pongs <= o.pings + 1
  {
    TotalBound(c, s);
    Multiply(o.peers, |c.peers|, o.pings + 1, o.pings + 1);
    if |c.peers| <= 1 {
      Multiply(|c.peers|, 1, o.pings + 1, o.pings + 1);
    }
  }

  /** When a tick loads its ping counter with one pong peer, it has seen more pongs than pings if and only
      if that moment lies between a publish and its count, and the pong of every ping published so far,
      that newest one included, had been counted when the pongs were loaded. */
  lemma OvershootExactly(c: Config, run: seq<Action>, s: State)
    requires Exec(c, run) == At(s) && |c.peers| == 1 && s.tick.LoadedPongs?
    ensures var tick := Apply(c, s, LoadPings).tick;
      tick.pongs > tick.pings <==> Uncounted(s) == 1 && s.tick.pongs == |s.sent|
  {
    RunInvariant(c, run);
    TotalBound(c, s);
    Multiply(|s.node.pongs.order|, 1, |s.sent|, |s.sent|);
  }

  /** A tick that has begun can always go on: its next step is never held up by the other threads. */
  lemma TickNeverBlocked(c: Config, run: seq<Action>, s: State)
    requires Exec(c, run) == At(s)
    ensures Enabled(c, s, LoadPongs) || Enabled(c, s, LoadPings) || Enabled(c, s, FinishTick)
  {
    RunInvariant(c, run);
  }

  /** Per peer, in either send mode: accepted sequence numbers strictly ascend, no published ping is
      accepted twice, the pong carries the stamp and baggage its ping was sent with, and the signed
      difference that decides acceptance stays far inside 64 bits. */
  lemma AcceptedOncePerPing(c: Config, run: seq<Action>, s: State, i: nat, j: nat)
    requires Exec(c, run) == At(s) && i < j < |s.log|
    requires s.log[i].peer == s.log[j].peer
    ensures
      && s.log[i].msg.seqNo < s.log[j].msg.seqNo < TWO_32
      && ToInt64(s.log[j].msg.seqNo) - ToInt64(s.log[i].msg.seqNo) == s.log[j].msg.seqNo - s.log[i].msg.seqNo
      && (exists k :: 0 <= k < |s.sent| && s.log[j].msg == Echo(s.sent[k]) && s.log[j].msg.baggage == c.baggage)
      && (forall k :: 0 <= k < |s.sent| ==> !(s.log[i].msg == Echo(s.sent[k]) && s.log[j].msg == Echo(s.sent[k])))
  {
    RunInvariant(c, run);
    var g := s.log[i].peer;
    HeardOrder(s.log, g, i, j);
    HeardNonEmpty(s.log, i);
    assert s.log[j] in s.log && s.log[i] in s.log;
    var k := EchoFacts(c, s, s.log[j].msg);
    var k' := EchoFacts(c, s, s.log[i].msg);
  }

  lemma {:induction false} HeardOrder(log: seq<Accept>, g: Gid, i: nat, j: nat)
    requires i < j < |log| && log[i].peer == g == log[j].peer
    requires StrictlyAscending(Heard(log, g), SeqNoOf)
    ensures log[i].msg.seqNo < log[j].msg.seqNo
  {
    var n := |log| - 1;
    assert Heard(log, g) == Heard(log[..n], g) + if log[n].peer == g then [log[n]] else [];
    PrefixAscends(Heard(log, g), Heard(log[..n], g));
    if j < n {
      HeardOrder(log[..n], g, i, j);
    } else {
      HeardHas(log[..n], g, i);
      BelowLast(Heard(log[..n], g), log[i], log[n]);
    }
  }

  lemma PrefixAscends(h: seq<Accept>, h': seq<Accept>)
    requires StrictlyAscending(h, SeqNoOf) && h' <= h
    ensures StrictlyAscending(h', SeqNoOf)
  {
    forall i, j | 0 <= i < j < |h'| ensures SeqNoOf(h'[i]) < SeqNoOf(h'[j]) {
      assert h'[i] == h[i] && h'[j] == h[j];
    }
  }

  lemma BelowLast(h: seq<Accept>, e: Accept, last: Accept)
    requires StrictlyAscending(h + [last], SeqNoOf) && e in h
    ensures e.msg.seqNo < last.msg.seqNo
  {
    var x :| 0 <= x < |h| && h[x] == e;
    assert SeqNoOf((h + [last])[x]) < SeqNoOf((h + [last])[|h|]);
  }

  lemma {:induction false} HeardHas(log: seq<Accept>, g: Gid, i: nat)
    requires i < |log| && log[i].peer == g
    ensures log[i] in Heard(log, g)
  {
    if i < |log| - 1 {
      HeardHas(log[..|log| - 1], g, i);
    }
  }

  /** Each accepted pong yields one non-negative sample, half the time since its ping was stamped, and a
      peer's total buffer holds the first 200000 of them. */
  lemma SamplesStored(c: Config, run: seq<Action>, s: State, g: Gid)
    requires Exec(c, run) == At(s) && g in s.node.pongs.tracks
    ensures var h := Heard(s.log, g); var total := s.node.pongs.tracks[g].lat.total;
      && total == Take(Samples(h), 200_000)
      && |Samples(h)| == |h|
      && |total| == (if |h| <= 200_000 then |h| else 200_000)
      && (forall i :: 0 <= i < |h| ==> Samples(h)[i] == (h[i].at - h[i].msg.stamp) / 2 >= 0)
  {
    RunInvariant(c, run);
    var h := Heard(s.log, g);
    forall i | 0 <= i < |h| ensures h[i].msg.stamp <= h[i].at {
      HeardIn(s.log, g, i);
    }
    SamplesAt(h);
  }

  lemma {:induction false} SamplesAt(h: seq<Accept>)
    requires forall i :: 0 <= i < |h| ==> h[i].msg.stamp <= h[i].at
    ensures |Samples(h)| == |h|
    ensures forall i :: 0 <= i < |h| ==> Samples(h)[i] == (h[i].at - h[i].msg.stamp) / 2 >= 0
  {
    if h != [] {
      SamplesAt(h[..|h| - 1]);
    }
  }

  /** The wrap bound, with no assumption on the length of the run: each peer is accepted at most 2^31
      times, and a response-driven run publishes at most 1 + accepted <= 1 + n*2^31 pings. */
  lemma WrapBound(c: Config, run: seq<Action>, s: State)
    requires Exec(c, run) == At(s)
    ensures
      && (forall g :: |Heard(s.log, g)| <= TWO_31)
      && |s.log| <= |c.peers| * TWO_31
      && (c.responseDriven ==> |s.sent| <= 1 + |s.log|)
  {
    RunInvariant(c, run);
    forall g ensures |Heard(s.log, g)| <= TWO_31 {
      PeerBound(c, s, g);
    }
    TotalBound(c, s);
    Multiply(|s.node.pongs.order|, |c.peers|, TWO_31, TWO_31);
  }

  // ---------------------------------------------------------------- one peer, response-driven: lockstep

  predicate OneToOne(c: Config) { c.responseDriven && |c.peers| == 1 }

  /** The i-th accepted pong is number 2*i. */
  ghost predicate InLockstep(log: seq<Accept>) {
    forall i :: 0 <= i < |log| ==> log[i].msg.seqNo == 2 * i
  }

  lemma SamePeer(c: Config, g: Gid, h: Gid)
    requires |c.peers| == 1 && g in c.peers && h in c.peers
    ensures g == h
  {
    assert |c.peers - {g}| == 0;
    assert h !in c.peers - {g};
  }

  lemma {:induction false} HeardAll(log: seq<Accept>, g: Gid)
    requires forall e :: e in log ==> e.peer == g
    ensures Heard(log, g) == log
  {
    if log != [] {
      var n := |log| - 1;
      forall e | e in log[..n] ensures e.peer == g {
        assert e in log;
      }
      HeardAll(log[..n], g);
      assert log[n] in log && log == log[..n] + [log[n]];
      HeardAppend(log[..n], log[n], g);
    }
  }

  /** What the registry knows about the only peer, in lockstep. */
  lemma LockstepTrack(c: Config, s: State, g: Gid)
    requires |c.peers| == 1 && InvSend(c, s) && InvLog(c, s) && InLockstep(s.log) && g in c.peers
    ensures g in s.node.pongs.tracks <==> s.log != []
    ensures s.log != [] ==> s.node.pongs.tracks[g].lastSeq == 2 * (|s.log| - 1)
    ensures 2 * (|s.log| - 1) < TWO_32
  {
    forall e | e in s.log ensures e.peer == g {
      SamePeer(c, e.peer, g);
    }
    HeardAll(s.log, g);
    PeerBound(c, s, g);
  }

  /** In lockstep, the echo of ping k is accepted exactly when it is the next one due and below the wrap. */
  lemma LockstepAccepts(c: Config, s: State, q: Pong, k: nat)
    requires OneToOne(c) && InvSend(c, s) && InvLog(c, s) && InvToken(c, s) && InLockstep(s.log)
    requires q.source in c.peers && k < |s.sent| && q.msg == Echo(s.sent[k])
    ensures AcceptsPong(s.node, q.source, q.msg) <==> k == |s.log| && k < TWO_31
  {
    EchoNumber(c, s, k);
    LockstepTrack(c, s, q.source);
    ModBelow(k);
    AcceptsNumber(s.node, q.source, q.msg, |s.log|, k % TWO_31);
  }

  lemma AcceptsNumber(n: Node, g: Gid, m: Uks, heard: nat, r: nat)
    requires g in n.pongs.tracks <==> heard > 0
    requires heard > 0 ==> n.pongs.tracks[g].lastSeq == 2 * (heard - 1) < TWO_32
    requires m.seqNo == 2 * r < TWO_32
    ensures AcceptsPong(n, g, m) <==> r >= heard
  {
  }

  lemma LogOnlyByDelivery(c: Config, s: State, a: Action)
    requires Enabled(c, s, a) && !(a.Deliver? && AcceptsPong(s.node, a.q.source, a.q.msg))
    ensures Apply(c, s, a).log == s.log
  {
  }

  lemma LockstepStep(c: Config, s: State, a: Action)
    requires OneToOne(c) && Inv(c, s) && InLockstep(s.log) && Enabled(c, s, a)
    ensures InLockstep(Apply(c, s, a).log)
  {
    if a.Deliver? && AcceptsPong(s.node, a.q.source, a.q.msg) {
      DeliverInLockstep(c, s, a.q);
    } else {
      LogOnlyByDelivery(c, s, a);
    }
  }

  lemma DeliverInLockstep(c: Config, s: State, q: Pong)
    requires OneToOne(c) && InvSend(c, s) && InvNet(c, s) && InvLog(c, s) && InvToken(c, s) && InLockstep(s.log)
    requires q in s.echoed && AcceptsPong(s.node, q.source, q.msg)
    ensures InLockstep(s.log + [Accept(q.source, q.msg, s.now)])
  {
    var k := EchoFacts(c, s, q.msg);
    LockstepAccepts(c, s, q, k);
    ModBelow(k);
  }

  lemma {:induction false} LockstepRun(c: Config, run: seq<Action>)
    requires OneToOne(c)
    ensures Exec(c, run).At? ==> InLockstep(Exec(c, run).state.log)
  {
    if run != [] {
      var n := |run| - 1;
      LockstepRun(c, run[..n]);
      if Exec(c, run).At? {
        RunInvariant(c, run[..n]);
        LockstepStep(c, Exec(c, run[..n]).state, run[n]);
      }
    }
  }

  /** With one pong peer a response-driven run never skips and never forks, under any loss, duplication
      and reordering and for any number of pings: the accepted pongs are 0, 2, 4, ... in that order,
      and the pings published are as many, or one more. */
  lemma Lockstep(c: Config, run: seq<Action>, s: State)
    requires OneToOne(c) && Exec(c, run) == At(s)
    ensures
      && (forall i :: 0 <= i < |s.log| ==> s.log[i].msg.seqNo == 2 * i)
      && |s.log| <= |s.sent| <= |s.log| + 1
      && |s.log| <= TWO_31
  {
    RunInvariant(c, run);
    LockstepRun(c, run);
    if s.log != [] {
      var e := s.log[|s.log| - 1];
      assert e in s.log;
      var k := EchoFacts(c, s, e.msg);
      ModBelow(k);
    }
  }

  /** Which deliveries still count: exactly the echo of the newest ping, while it is unanswered and the
      32-bit counter has not wrapped. So duplicates never start a second exchange, a lost ping ends the
      run, and after 2^31 accepted pongs nothing is ever accepted again. */
  lemma OnlyNewestPingCounts(c: Config, run: seq<Action>, s: State, q: Pong, k: nat)
    requires OneToOne(c) && Exec(c, run) == At(s)
    requires q in s.echoed && k < |s.sent|
    requires q.msg == Echo(s.sent[k])
    ensures
      AcceptsPong(s.node, q.source, q.msg) <==> k == |s.log| == |s.sent| - 1 && k < TWO_31
  {
    RunInvariant(c, run);
    LockstepRun(c, run);
    Lockstep(c, run, s);
    LockstepAccepts(c, s, q, k);
  }

  // ---------------------------------------------------------------- loss figures

  predicate NoIntervalLoss(ticks: seq<Obs>) {
    forall n :: 1 <= n <= |ticks| ==> IntervalLoss(ticks[..n]) == 0
  }

  lemma {:induction false} LossOverZero(ticks: seq<Obs>)
    ensures LossOver(ticks) == 0 <==> NoIntervalLoss(ticks)
  {
    if ticks != [] {
      var m := |ticks| - 1;
      LossOverZero(ticks[..m]);
      assert ticks[..|ticks|] == ticks;
      assert forall n :: 1 <= n <= m ==> ticks[..m][..n] == ticks[..n];
      if NoIntervalLoss(ticks[..m]) && IntervalLoss(ticks) == 0 {
        forall n | 1 <= n <= |ticks| ensures IntervalLoss(ticks[..n]) == 0 {
          if n <= m {
            assert ticks[..n] == ticks[..m][..n];
          }
        }
      }
      if NoIntervalLoss(ticks) {
        forall n | 1 <= n <= m ensures IntervalLoss(ticks[..m][..n]) == 0 {
          assert ticks[..m][..n] == ticks[..n];
        }
      }
    }
  }

  /** The pongs of the last interval beyond its pings. */
  function IntervalGain(ticks: seq<Obs>): nat
    requires ticks != []
  {
    var now, before := Last(ticks), Last(ticks[..|ticks| - 1]);
    Excess(now.pongs - before.pongs, now.pings - before.pings)
  }

  function GainOver(ticks: seq<Obs>): nat {
    if ticks == [] then 0 else GainOver(ticks[..|ticks| - 1]) + IntervalGain(ticks)
  }

  predicate NoIntervalGain(ticks: seq<Obs>) {
    forall n :: 1 <= n <= |ticks| ==> IntervalGain(ticks[..n]) == 0
  }

  lemma NoGainAppend(ticks: seq<Obs>, m: nat)
    requires |ticks| == m + 1
    ensures NoIntervalGain(ticks) <==> NoIntervalGain(ticks[..m]) && IntervalGain(ticks) == 0
  {
    assert ticks[..|ticks|] == ticks;
    assert forall n :: 1 <= n <= m ==> ticks[..m][..n] == ticks[..n];
    if NoIntervalGain(ticks) {
      forall n | 1 <= n <= m ensures IntervalGain(ticks[..m][..n]) == 0 {
        assert ticks[..m][..n] == ticks[..n];
      }
    }
    if NoIntervalGain(ticks[..m]) && IntervalGain(ticks) == 0 {
      forall n | 1 <= n <= |ticks| ensures IntervalGain(ticks[..n]) == 0 {
        assert n <= m ==> ticks[..n] == ticks[..m][..n];
      }
    }
  }

  lemma {:induction false} GainOverZero(ticks: seq<Obs>)
    ensures GainOver(ticks) == 0 <==> NoIntervalGain(ticks)
  {
    if ticks != [] {
      var m := |ticks| - 1;
      GainOverZero(ticks[..m]);
      NoGainAppend(ticks, m);
    }
  }

  /** What the intervals counted as lost, and what they ignored, make up the difference of the counters. */
  lemma {:induction false} LossBalances(ticks: seq<Obs>)
    ensures Last(ticks).pongs + LossOver(ticks) == Last(ticks).pings + GainOver(ticks)
  {
    if ticks != [] {
      LossBalances(ticks[..|ticks| - 1]);
    }
  }

  /** The running loss is the sum of the uncovered pings of all intervals, so nothing is dropped by the
      early return; it exceeds the pings unanswered at the last tick by the surplus of the intervals that saw
      more pongs than pings, so late pongs are never credited; and the summary's figure exceeds the
      unanswered pings by exactly the running loss, so it is the number of unanswered pings if and only if
      no interval ever saw more pings than pongs. */
  lemma SummaryLoss(c: Config, run: seq<Action>, s: State)
    requires Exec(c, run) == At(s)
    ensures var n := s.node;
      && n.lostTotal == LossOver(s.ticks)
      && n.lastPongs + n.lostTotal == n.lastPings + GainOver(s.ticks)
      && (n.lostTotal == n.lastPings - n.lastPongs <==> NoIntervalGain(s.ticks))
      && ReportedLoss(n) == Excess(n.pings, n.pongsTotal) + LossOver(s.ticks)
      && (ReportedLoss(n) == Excess(n.pings, n.pongsTotal) <==> NoIntervalLoss(s.ticks))
  {
    RunInvariant(c, run);
    LossOverZero(s.ticks);
    GainOverZero(s.ticks);
    LossBalances(s.ticks);
  }
}
