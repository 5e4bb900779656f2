/** The ping node (ping_mode.cpp): its counters, its registry of pong peers, and its four entry points. */
module PingNode {
  import opened PongPeers
  import opened Rounding
  import opened Sorting
  import opened Stats
  import opened Wire

  /** The 64-bit counters are unbounded here; nextSeq keeps its 32 bits. */
  datatype Node = Node(
    nextSeq: U32, pings: nat, pongsTotal: nat,
    lastPongs: nat, lastPings: nat, lostTotal: nat, pongs: Pongs)

  const FRESH_NODE := Node(0, 0, 0, 0, 0, 0, NO_PONGS)

  // ---------------------------------------------------------------- atomic pieces of send_ping and handle

  function PingFor(n: Node, now: nat, baggage: seq<bv8>): Uks {
    Uks(PingSeq(n.nextSeq), now, baggage)
  }

  function TakeSeq(n: Node): Node {
    n.(nextSeq := (n.nextSeq + 1) % TWO_32)
  }

  function CountPing(n: Node): Node {
    n.(pings := n.pings + 1)
  }

  /** Half the round trip, with C++ division that truncates toward zero. */
  function Rtt(now: nat, stamp: nat): (r: int)
    ensures now >= stamp ==> 0 <= now - stamp - 2 * r <= 1
    ensures now <= stamp ==> 0 <= 2 * r - (now - stamp) <= 1
  {
    if now >= stamp then (now - stamp) / 2 else -((stamp - now) / 2)
  }

  /** Odd sequence numbers are pings and are ignored; an even one must advance the peer's. */
  predicate AcceptsPong(n: Node, key: Gid, msg: Uks) {
    msg.seqNo % 2 == 0 && Accepts(n.pongs, key, msg.seqNo)
  }

  function TakePong(n: Node, key: Gid, msg: Uks, now: nat): Node {
    if msg.seqNo % 2 != 0 then n else n.(pongs := OnPong(n.pongs, key, msg.seqNo, Rtt(now, msg.stamp)))
  }

  function CountPong(n: Node): Node {
    n.(pongsTotal := n.pongsTotal + 1)
  }

  /** handle in one piece: the node after a message, and the pings it published, at most one. */
  function Handled(n: Node, responseDriven: bool, stop: bool, msg: Uks, key: Gid, now: nat, baggage: seq<bv8>)
    : (Node, seq<Uks>)
  {
    if !AcceptsPong(n, key, msg) then (n, [])
    else
      var counted := CountPong(TakePong(n, key, msg, now));
      if !responseDriven || stop then (counted, [])
      else (CountPing(TakeSeq(counted)), [PingFor(counted, now, baggage)])
  }

  // ---------------------------------------------------------------- the periodic tick and the summary

  function PerSecond(delta: nat, dt: real): nat
    requires dt > 0.0
  {
    assert delta as real / dt >= 0.0;
    (delta as real / dt + 0.5).Floor
  }

  /** The part of a beyond b. */
  function Excess(a: int, b: int): (r: nat)
    ensures r >= a - b && (r == 0 || r == a - b)
  {
    if a > b then a - b else 0
  }

  datatype TickReport =
    | Silent
    | NoPong(pingsPerSec: nat, lostPerSec: nat, lostTotal: nat, pingsNow: nat)
    | Counts(pongsPerSec: nat, pingsPerSec: nat, lostPerSec: nat, lostTotal: nat, pongsNow: nat, windows: seq<PongRow>)

  /** The rows printed by tick: those whose window holds at least one sample. */
  function WithWindow(rows: seq<PongRow>): seq<PongRow> {
    if rows == [] then []
    else WithWindow(rows[..|rows| - 1]) + if rows[|rows| - 1].hasLatWindow then [rows[|rows| - 1]] else []
  }

  function TickLoss(n: Node, pongsNow: nat, pingsNow: nat): nat
    requires n.lastPongs <= pongsNow && n.lastPings <= pingsNow
  {
    Excess(pingsNow - n.lastPings, pongsNow - n.lastPongs)
  }

  /** The early return of tick: nothing was counted and no peer is known. */
  predicate NothingToReport(pongs: nat, pings: nat, dt: real, rows: seq<PongRow>)
    requires dt > 0.0
  {
    PerSecond(pongs, dt) == 0 && PerSecond(pings, dt) == 0 && rows == []
  }

  /** What tick prints for the counts of one interval. */
  function ReportOf(pongs: nat, pings: nat, dt: real, lostTotal: nat, pongsNow: nat, pingsNow: nat,
                    rows: seq<PongRow>): TickReport
    requires dt > 0.0
  {
    var lost := PerSecond(Excess(pings, pongs), dt);
    if NothingToReport(pongs, pings, dt, rows) then Silent
    else if PerSecond(pongs, dt) == 0 && PerSecond(pings, dt) > 0 then
      NoPong(PerSecond(pings, dt), lost, lostTotal, pingsNow)
    else
      Counts(PerSecond(pongs, dt), PerSecond(pings, dt), lost, lostTotal, pongsNow, WithWindow(rows))
  }

  /** tick's effect, given the counter values it loaded (pongs first, then pings). */
  ghost function TickUpdate(n: Node, dt: real, pongsNow: nat, pingsNow: nat): Node
    requires n.lastPongs <= pongsNow && n.lastPings <= pingsNow
  {
    if dt <= 0.0 then n
    else
      var rows := SnapshotRows(n.pongs, TickReset);
      var early := NothingToReport(pongsNow - n.lastPongs, pingsNow - n.lastPings, dt, rows);
      n.(lastPongs := pongsNow, lastPings := pingsNow, pongs := AfterSnapshot(n.pongs, TickReset),
         lostTotal := n.lostTotal + if early then 0 else TickLoss(n, pongsNow, pingsNow))
  }

  ghost function TickPrints(n: Node, dt: real, pongsNow: nat, pingsNow: nat): TickReport
    requires n.lastPongs <= pongsNow && n.lastPings <= pingsNow
  {
    if dt <= 0.0 then Silent
    else ReportOf(pongsNow - n.lastPongs, pingsNow - n.lastPings, dt,
                  n.lostTotal + TickLoss(n, pongsNow, pingsNow), pongsNow, pingsNow,
                  SnapshotRows(n.pongs, TickReset))
  }

  /** The loss figure printed by the final summary. */
  function ReportedLoss(n: Node): nat {
    n.lostTotal + Excess(n.pings, n.pongsTotal)
  }

  lemma TickAs(n: Node, dt: real, pongsNow: nat, pongs: nat, pingsNow: nat, pings: nat, rows: seq<PongRow>, lost: nat)
    requires dt > 0.0 && pongs == pongsNow - n.lastPongs && pings == pingsNow - n.lastPings
    requires rows == SnapshotRows(n.pongs, TickReset) && lost == n.lostTotal + Excess(pings, pongs)
    ensures TickPrints(n, dt, pongsNow, pingsNow) == ReportOf(pongs, pings, dt, lost, pongsNow, pingsNow, rows)
    ensures TickUpdate(n, dt, pongsNow, pingsNow)
         == n.(lastPongs := pongsNow, lastPings := pingsNow, pongs := AfterSnapshot(n.pongs, TickReset),
               lostTotal := if NothingToReport(pongs, pings, dt, rows) then n.lostTotal else lost)
  {
  }

  class PingMode {
    const rateHz: real
    const baggage: seq<bv8>
    const registry: PongRegistry
    var nextSeq: U32
    var pings: nat
    var pongsTotal: nat
    var lastPongs: nat
    var lastPings: nat
    var lostTotal: nat

    ghost function Value(): Node
      reads this, registry
    {
      Node(nextSeq, pings, pongsTotal, lastPongs, lastPings, lostTotal, registry.Value())
    }

    ghost predicate Valid()
      reads this, registry
    {
      registry.Valid() && lastPongs <= pongsTotal && lastPings <= pings
    }

    constructor (rateHz: real, baggage: seq<bv8>)
      ensures Valid() && fresh(registry)
      ensures Value() == FRESH_NODE && this.rateHz == rateHz && this.baggage == baggage
    {
      this.rateHz, this.baggage := rateHz, baggage;
      registry := new PongRegistry();
      nextSeq, pings, pongsTotal, lastPongs, lastPings, lostTotal := 0, 0, 0, 0, 0, 0;
    }

    /** send_ping: the returned message is the one handed to the publisher. */
    method SendPing(now: nat) returns (msg: Uks)
      requires Valid()
      modifies this
      ensures Valid()
      ensures msg == PingFor(old(Value()), now, baggage)
      ensures msg.seqNo == (2 * old(nextSeq)) % TWO_32 + 1 && msg.stamp == now && msg.baggage == baggage
      ensures Value() == CountPing(TakeSeq(old(Value())))
    {
      msg := Uks(PingSeq(nextSeq), now, baggage);
      nextSeq := (nextSeq + 1) % TWO_32;
      pings := pings + 1;
    }

    /** handle: returns the pings it published, at most one. */
    method Handle(msg: Uks, key: Gid, now: nat, stop: bool) returns (published: seq<Uks>)
      requires Valid()
      modifies this, registry
      ensures Valid()
      ensures (Value(), published) == Handled(old(Value()), rateHz <= 0.0, stop, msg, key, now, baggage)
      ensures forall ping :: ping in published ==>
        ping.seqNo == (2 * old(nextSeq)) % TWO_32 + 1 && ping.stamp == now && ping.baggage == baggage
    {
      if msg.seqNo % 2 != 0 {
        return [];
      }
      var rtt := Rtt(now, msg.stamp);
      var accepted := registry.Receive(key, msg.seqNo, rtt);
      if !accepted {
        return [];
      }
      pongsTotal := pongsTotal + 1;
      if rateHz > 0.0 || stop {
        return [];
      }
      var ping := SendPing(now);
      published := [ping];
    }

    method Tick(dt: real) returns (report: TickReport)
      requires Valid()
      modifies this, registry
      ensures Valid()
      ensures report == TickPrints(old(Value()), dt, old(pongsTotal), old(pings))
      ensures Value() == TickUpdate(old(Value()), dt, old(pongsTotal), old(pings))
    {
      report := Silent;
      if dt > 0.0 {
        report := TickPositive(dt);
      }
    }

    method TickPositive(dt: real) returns (report: TickReport)
      requires Valid() && dt > 0.0
      modifies this, registry
      ensures Valid()
      ensures report == TickPrints(old(Value()), dt, old(pongsTotal), old(pings))
      ensures Value() == TickUpdate(old(Value()), dt, old(pongsTotal), old(pings))
    {
      var pongsNow := pongsTotal;
      var pingsNow := pings;
      var rows, pongsBefore, pingsBefore := Roll(pongsNow, pingsNow);
      var deltaPongs, deltaPings := pongsNow - pongsBefore, pingsNow - pingsBefore;
      var deltaLost := Excess(deltaPings, deltaPongs);
      var lostNow := lostTotal + deltaLost;
      report := ReportOf(deltaPongs, deltaPings, dt, lostNow, pongsNow, pingsNow, rows);
      TickAs(old(Value()), dt, pongsNow, deltaPongs, pingsNow, deltaPings, rows, lostNow);
      if !NothingToReport(deltaPongs, deltaPings, dt, rows) {
        lostTotal := lostNow;
      }
    }

    /** The first half of tick: move the counter baselines and drain the latency windows. */
    method Roll(pongsNow: nat, pingsNow: nat) returns (rows: seq<PongRow>, pongsBefore: nat, pingsBefore: nat)
      requires Valid() && lastPongs <= pongsNow <= pongsTotal && lastPings <= pingsNow <= pings
      modifies this`lastPongs, this`lastPings, registry
      ensures Valid()
      ensures pongsBefore == old(lastPongs) && pingsBefore == old(lastPings)
      ensures rows == SnapshotRows(old(Value()).pongs, TickReset)
      ensures Value() == old(Value()).(lastPongs := pongsNow, lastPings := pingsNow,
                                       pongs := AfterSnapshot(old(Value()).pongs, TickReset))
    {
      pongsBefore, pingsBefore := lastPongs, lastPings;
      lastPongs, lastPings := pongsNow, pingsNow;
      rows := registry.Snapshot(TickReset);
    }

    method Summary() returns (sent: nat, recv: nat, lost: nat, totals: seq<PongRow>)
      requires Valid()
      modifies registry
      ensures Valid() && Value() == old(Value())
      ensures sent == pings && recv == pongsTotal && lost == ReportedLoss(Value())
      ensures totals == SnapshotRows(old(Value()).pongs, Totals)
    {
      sent, recv := pings, pongsTotal;
      lost := lostTotal + Excess(sent, recv);
      ghost var before := Value().pongs;
      totals := registry.Snapshot(Totals);
      TotalsKeepEverything(before);
    }
  }

  lemma TotalsKeepEverything(p: Pongs)
    ensures AfterSnapshot(p, Totals) == p
  {
    assert TracksAfter(p.tracks, Totals) == p.tracks;
  }

  // ---------------------------------------------------------------- what a tick says

  lemma NoRowsNoPeers(p: Pongs)
    requires ValidPongs(p)
    ensures SnapshotRows(p, TickReset) == [] <==> p.order == []
  {
    SnapshotNumbersPeers(p, TickReset);
  }

  lemma UnitReport(pongs: nat, pings: nat, lostTotal: nat, pongsNow: nat, pingsNow: nat, rows: seq<PongRow>)
    ensures var r := ReportOf(pongs, pings, 1.0, lostTotal, pongsNow, pingsNow, rows);
      var lost := if pings > pongs then pings - pongs else 0;
      && (r.Silent? <==> pongs == 0 && pings == 0 && rows == [])
      && (r.NoPong? <==> pongs == 0 && pings > 0)
      && (r.NoPong? ==>
            r.pingsPerSec == pings && r.lostPerSec == lost && r.lostTotal == lostTotal && r.pingsNow == pingsNow)
      && (r.Counts? ==>
            && r.pongsPerSec == pongs && r.pingsPerSec == pings && r.lostPerSec == lost
            && r.lostTotal == lostTotal && r.pongsNow == pongsNow)
  {
    PerSecondUnit(pongs);
    PerSecondUnit(pings);
    PerSecondUnit(Excess(pings, pongs));
  }

  /** What tick prints in main's one-second interval: nothing exactly when nothing was counted and no peer is
      known; the no-pong line exactly when pings were counted and no pong; the figures are the differences of
      the counters, the loss of the interval, and the running loss and counter after the tick. */
  lemma TickSays(n: Node, pongsNow: nat, pingsNow: nat)
    requires ValidPongs(n.pongs) && n.lastPongs <= pongsNow && n.lastPings <= pingsNow
    ensures var r := TickPrints(n, 1.0, pongsNow, pingsNow);
      var pongs, pings := pongsNow - n.lastPongs, pingsNow - n.lastPings;
      var lost := if pings > pongs then pings - pongs else 0;
      && (r.Silent? <==> pongs == 0 && pings == 0 && n.pongs.order == [])
      && (r.NoPong? <==> pongs == 0 && pings > 0)
      && (r.NoPong? ==>
            && r.pingsPerSec == pings && r.lostPerSec == lost
            && r.lostTotal == n.lostTotal + lost && r.pingsNow == pingsNow)
      && (r.Counts? ==>
            && r.pongsPerSec == pongs && r.pingsPerSec == pings && r.lostPerSec == lost
            && r.lostTotal == n.lostTotal + lost && r.pongsNow == pongsNow)
  {
    var pongs, pings := pongsNow - n.lastPongs, pingsNow - n.lastPings;
    var rows, lost := SnapshotRows(n.pongs, TickReset), n.lostTotal + Excess(pings, pongs);
    TickAs(n, 1.0, pongsNow, pongs, pingsNow, pings, rows, lost);
    UnitReport(pongs, pings, lost, pongsNow, pingsNow, rows);
    NoRowsNoPeers(n.pongs);
  }

  /** What a one-second tick leaves behind: the baselines are the counters it read, the running loss has grown
      by the interval's loss, and the numbering and the counters of send_ping and handle are untouched. */
  lemma TickKeeps(n: Node, pongsNow: nat, pingsNow: nat)
    requires n.lastPongs <= pongsNow && n.lastPings <= pingsNow
    ensures var after := TickUpdate(n, 1.0, pongsNow, pingsNow);
      var pongs, pings := pongsNow - n.lastPongs, pingsNow - n.lastPings;
      && after.lastPongs == pongsNow && after.lastPings == pingsNow
      && after.lostTotal == n.lostTotal + (if pings > pongs then pings - pongs else 0)
      && after.nextSeq == n.nextSeq && after.pings == n.pings && after.pongsTotal == n.pongsTotal
      && after.pongs.order == n.pongs.order
  {
    UnitTickLoss(n, pongsNow, pingsNow);
  }

  lemma RatedReport(pongs: nat, pings: nat, dt: real, lostTotal: nat, pongsNow: nat, pingsNow: nat,
                    rows: seq<PongRow>)
    requires dt > 0.0
    ensures var r := ReportOf(pongs, pings, dt, lostTotal, pongsNow, pingsNow, rows);
      var lost := if pings > pongs then pings - pongs else 0;
      && (r.Silent? <==> 2.0 * pongs as real < dt && 2.0 * pings as real < dt && rows == [])
      && (r.NoPong? <==> 2.0 * pongs as real < dt <= 2.0 * pings as real)
      && (r.NoPong? ==>
            && RoundsTo(r.pingsPerSec, pings as real, dt) && RoundsTo(r.lostPerSec, lost as real, dt)
            && r.lostTotal == lostTotal && r.pingsNow == pingsNow)
      && (r.Counts? ==>
            && RoundsTo(r.pongsPerSec, pongs as real, dt) && RoundsTo(r.pingsPerSec, pings as real, dt)
            && RoundsTo(r.lostPerSec, lost as real, dt)
            && r.lostTotal == lostTotal && r.pongsNow == pongsNow)
  {
    PerSecondRounds(pongs, dt);
    PerSecondRounds(pings, dt);
    PerSecondRounds(Excess(pings, pongs), dt);
    RoundsToZero(pongs, dt);
    RoundsToZero(pings, dt);
  }

  /** The same for any positive interval: each figure is the rounded rate of its count, and which line is
      printed depends on which counts round to zero. */
  lemma TickRates(n: Node, dt: real, pongsNow: nat, pingsNow: nat)
    requires dt > 0.0 && ValidPongs(n.pongs) && n.lastPongs <= pongsNow && n.lastPings <= pingsNow
    ensures var r := TickPrints(n, dt, pongsNow, pingsNow);
      var pongs, pings := pongsNow - n.lastPongs, pingsNow - n.lastPings;
      var lost := if pings > pongs then pings - pongs else 0;
      && (r.Silent? <==> 2.0 * pongs as real < dt && 2.0 * pings as real < dt && n.pongs.order == [])
      && (r.NoPong? <==> 2.0 * pongs as real < dt <= 2.0 * pings as real)
      && (r.NoPong? ==>
            && RoundsTo(r.pingsPerSec, pings as real, dt) && RoundsTo(r.lostPerSec, lost as real, dt)
            && r.lostTotal == n.lostTotal + lost && r.pingsNow == pingsNow)
      && (r.Counts? ==>
            && RoundsTo(r.pongsPerSec, pongs as real, dt) && RoundsTo(r.pingsPerSec, pings as real, dt)
            && RoundsTo(r.lostPerSec, lost as real, dt)
            && r.lostTotal == n.lostTotal + lost && r.pongsNow == pongsNow)
  {
    var pongs, pings := pongsNow - n.lastPongs, pingsNow - n.lastPings;
    var rows, lost := SnapshotRows(n.pongs, TickReset), n.lostTotal + Excess(pings, pongs);
    TickAs(n, dt, pongsNow, pongs, pingsNow, pings, rows, lost);
    RatedReport(pongs, pings, dt, lost, pongsNow, pingsNow, rows);
    NoRowsNoPeers(n.pongs);
  }

  lemma {:induction false} WithWindowSelects(rows: seq<PongRow>)
    requires StrictlyAscending(rows, RowId)
    ensures StrictlyAscending(WithWindow(rows), RowId)
    ensures forall r :: r in WithWindow(rows) <==> r in rows && r.hasLatWindow
  {
    if rows != [] {
      var m := |rows| - 1;
      WithWindowSelects(rows[..m]);
      assert rows == rows[..m] + [rows[m]];
      var before := WithWindow(rows[..m]);
      forall i | 0 <= i < |before| ensures RowId(before[i]) < RowId(rows[m]) {
        assert before[i] in rows[..m];
        var j :| 0 <= j < m && rows[j] == before[i];
        assert RowId(rows[j]) < RowId(rows[m]);
      }
    }
  }

  /** The latency lines of a tick: one for each peer with a sample since the last tick and for no other, in
      first-heard order, each summarising the samples in that peer's window. */
  lemma TickWindows(n: Node, dt: real, pongsNow: nat, pingsNow: nat)
    requires dt > 0.0 && ValidPongs(n.pongs) && n.lastPongs <= pongsNow && n.lastPings <= pingsNow
    requires TickPrints(n, dt, pongsNow, pingsNow).Counts?
    ensures var windows := TickPrints(n, dt, pongsNow, pingsNow).windows; var tracks := n.pongs.tracks;
      && StrictlyAscending(windows, RowId)
      && (forall r :: r in windows ==>
            && r.gid in tracks && tracks[r.gid].lat.window != []
            && r.id == tracks[r.gid].id && IsSummary(r.latWindow, tracks[r.gid].lat.window))
      && forall g :: g in tracks && tracks[g].lat.window != [] ==> exists r :: r in windows && r.gid == g
  {
    var rows := SnapshotRows(n.pongs, TickReset);
    RowsOfPeers(n.pongs, TickReset);
    WithWindowSelects(rows);
    forall g | g in n.pongs.tracks && n.pongs.tracks[g].lat.window != []
      ensures exists r :: r in WithWindow(rows) && r.gid == g
    {
      assert RowOf(g, n.pongs.tracks[g], TickReset) in rows;
    }
  }

  // ---------------------------------------------------------------- loss accounting of a single tick

  lemma PerSecondUnit(delta: nat)
    ensures PerSecond(delta, 1.0) == delta
  {
  }

  /** With dt == 1, which main passes, the early return never swallows a loss. */
  lemma UnitTickLoss(n: Node, pongsNow: nat, pingsNow: nat)
    requires n.lastPongs <= pongsNow && n.lastPings <= pingsNow
    ensures TickUpdate(n, 1.0, pongsNow, pingsNow).lostTotal == n.lostTotal + TickLoss(n, pongsNow, pingsNow)
  {
    PerSecondUnit(pongsNow - n.lastPongs);
    PerSecondUnit(pingsNow - n.lastPings);
  }

  lemma PerSecondRounds(count: nat, dt: real)
    requires dt > 0.0
    ensures RoundsTo(PerSecond(count, dt), count as real, dt)
  {
    RoundedQuotient(count as real, dt, PerSecond(count, dt));
  }

  lemma RoundsToZero(delta: nat, dt: real)
    requires dt > 0.0
    ensures PerSecond(delta, dt) == 0 <==> 2.0 * delta as real < dt
  {
    var q := delta as real / dt;
    assert q * dt == delta as real;
    if 2.0 * q < 1.0 {
      assert q + 0.5 < 1.0 && q >= 0.0;
      assert (1.0 - 2.0 * q) * dt > 0.0;
    } else {
      assert q + 0.5 >= 1.0;
      assert (2.0 * q - 1.0) * dt >= 0.0;
    }
  }

  /** Which reporting intervals are safe: the early return can swallow a loss exactly when dt > 2. */
  lemma EarlyReturnLossless(dt: real)
    requires dt > 0.0
    ensures (forall n: Node, pongsNow: nat, pingsNow: nat
               {:trigger TickUpdate(n, dt, pongsNow, pingsNow)} ::
               n.lastPongs <= pongsNow && n.lastPings <= pingsNow ==>
               TickUpdate(n, dt, pongsNow, pingsNow).lostTotal == n.lostTotal + TickLoss(n, pongsNow, pingsNow))
        <==> dt <= 2.0
  {
    if dt <= 2.0 {
      forall n: Node, pongsNow: nat, pingsNow: nat | n.lastPongs <= pongsNow && n.lastPings <= pingsNow
        ensures TickUpdate(n, dt, pongsNow, pingsNow).lostTotal == n.lostTotal + TickLoss(n, pongsNow, pingsNow)
      {
        RoundsToZero(pingsNow - n.lastPings, dt);
      }
    } else {
      RoundsToZero(0, dt);
      RoundsToZero(1, dt);
      assert TickUpdate(FRESH_NODE, dt, 0, 1).lostTotal == 0;
      assert TickLoss(FRESH_NODE, 0, 1) == 1;
    }
  }
}
