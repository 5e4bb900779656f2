/** What the subscriber's incremental gap counter means, over whole runs. */
module LossAccounting {
  import opened Report
  import opened SubRegistry
  import opened Wire

  // ---------------------------------------------------------------- runs of the registry

  datatype SubEvent =
    | Message(g: Gid, seqNo: U64, size: nat, oneway: int)
    | Tick
    | Summary

  ghost function Apply(p: Pubs, latency: bool, e: SubEvent): Pubs {
    match e
    case Message(g, seqNo, size, oneway) => OnMessage(p, latency, g, seqNo, size, oneway)
    case Tick => AfterSnapshot(p, latency, TickReset)
    case Summary => AfterSnapshot(p, latency, Totals)
  }

  ghost function Run(latency: bool, es: seq<SubEvent>): Pubs {
    if es == [] then NO_PUBS else Apply(Run(latency, es[..|es| - 1]), latency, es[|es| - 1])
  }

  /** The sequence numbers delivered from one publisher, in order of arrival. */
  function Arrivals(es: seq<SubEvent>, g: Gid): seq<U64> {
    if es == [] then []
    else
      var e := es[|es| - 1];
      Arrivals(es[..|es| - 1], g) + if e.Message? && e.g == g then [e.seqNo] else []
  }

  /** Those of them that arrived after the last tick. */
  function SinceTick(es: seq<SubEvent>, g: Gid): seq<U64> {
    if es == [] then []
    else
      var e := es[|es| - 1];
      if e.Tick? then []
      else SinceTick(es[..|es| - 1], g) + if e.Message? && e.g == g then [e.seqNo] else []
  }

  /** What the ticks of a run have reported so far for one publisher. */
  ghost function TickedRecv(latency: bool, es: seq<SubEvent>, g: Gid): nat {
    if es == [] then 0
    else
      var n := |es| - 1;
      var rows := RowMap(Run(latency, es[..n]).tracks, latency, TickReset);
      TickedRecv(latency, es[..n], g) + if es[n].Tick? && g in rows then rows[g].recvTick else 0
  }

  ghost function TickedLost(latency: bool, es: seq<SubEvent>, g: Gid): nat {
    if es == [] then 0
    else
      var n := |es| - 1;
      var rows := RowMap(Run(latency, es[..n]).tracks, latency, TickReset);
      TickedLost(latency, es[..n], g) + if es[n].Tick? && g in rows then rows[g].lostTick else 0
  }

  // ---------------------------------------------------------------- the counter as a fold over arrivals

  /** The numbers a, a+1, ..., b-1. */
  function Range(a: nat, b: nat): (r: set<nat>)
    ensures forall k :: k in r <==> a <= k < b
    decreases b
  {
    if a >= b then {} else Range(a, b - 1) + {b - 1}
  }

  lemma {:induction false} RangeSize(a: nat, b: nat)
    requires a <= b
    ensures |Range(a, b)| == b - a
    decreases b
  {
    if a < b {
      RangeSize(a, b - 1);
    }
  }

  /** What some arrivals from one publisher amount to. `level` and `lost` are the program's last_seq and
      lost; the rest is bookkeeping for the proofs: which numbers were jumped over and which arrived. */
  datatype History = History(level: U32, lost: nat, skipped: set<nat>, received: set<nat>)

  function Start(s: U64): History {
    History(Low32(s), 0, {}, {s})
  }

  function Arrive(h: History, s: U64): History {
    if s <= h.level then
      h.(received := h.received + {s})
    else
      History(Low32(s), h.lost + (s - h.level - 1), h.skipped + Range(h.level + 1, s), h.received + {s})
  }

  function Trace(ss: seq<U64>): History
    requires ss != []
  {
    var n := |ss| - 1;
    if n == 0 then Start(ss[0]) else Arrive(Trace(ss[..n]), ss[n])
  }

  /** A publisher's track is a function of what arrived from it alone; what the ticks have not reported
      yet is what its tick counters hold; a quiet publisher has an empty window. */
  ghost predicate TrackMatches(t: PubTrack, latency: bool, ss: seq<U64>, tickedRecv: nat, tickedLost: nat) {
    ss != [] && TrackIs(t, latency, Trace(ss), |ss|, tickedRecv, tickedLost)
  }

  ghost predicate TrackIs(t: PubTrack, latency: bool, h: History, count: nat, tickedRecv: nat, tickedLost: nat) {
    && t.lastSeq == h.level
    && t.recv == count == tickedRecv + t.recvTick
    && t.lost == h.lost == tickedLost + t.lostTick
    && |t.lat.window| <= (if latency then t.recvTick else 0)
    && (t.lostTick > 0 ==> t.recvTick > 0)
  }

  lemma FirstMessage(id: nat, latency: bool, seqNo: U64, size: nat, oneway: int)
    ensures TrackIs(AddLatency(NewTrack(id, seqNo, size), latency, oneway), latency, Start(seqNo), 1, 0, 0)
  {
  }

  lemma NextMessage(t: PubTrack, h: History, count: nat, tickedRecv: nat, tickedLost: nat,
                    latency: bool, seqNo: U64, size: nat, oneway: int)
    requires TrackIs(t, latency, h, count, tickedRecv, tickedLost)
    ensures TrackIs(AddLatency(CountMessage(t, seqNo, size), latency, oneway), latency,
                    Arrive(h, seqNo), count + 1, tickedRecv, tickedLost)
  {
  }

  lemma TraceAppend(ss: seq<U64>, s: U64)
    ensures Trace(ss + [s]) == if ss == [] then Start(s) else Arrive(Trace(ss), s)
  {
    assert (ss + [s])[..|ss|] == ss;
  }

  lemma AfterTick(t: PubTrack, h: History, count: nat, tickedRecv: nat, tickedLost: nat, latency: bool)
    requires TrackIs(t, latency, h, count, tickedRecv, tickedLost)
    ensures TrackIs(TrackAfter(t, latency, TickReset), latency, h, count,
                    tickedRecv + if Reported(t, TickReset) then t.recvTick else 0,
                    tickedLost + if Reported(t, TickReset) then t.lostTick else 0)
  {
  }

  ghost predicate GidMatches(latency: bool, es: seq<SubEvent>, g: Gid) {
    var p := Run(latency, es);
    if g in p.tracks then
      TrackMatches(p.tracks[g], latency, Arrivals(es, g), TickedRecv(latency, es, g), TickedLost(latency, es, g))
    else
      Arrivals(es, g) == [] && TickedRecv(latency, es, g) == 0 && TickedLost(latency, es, g) == 0
  }

  lemma RunAppend(latency: bool, es: seq<SubEvent>, e: SubEvent, g: Gid)
    ensures var es' := es + [e]; var rows := RowMap(Run(latency, es).tracks, latency, TickReset);
      && Run(latency, es') == Apply(Run(latency, es), latency, e)
      && Arrivals(es', g) == (if e.Message? && e.g == g then Arrivals(es, g) + [e.seqNo] else Arrivals(es, g))
      && TickedRecv(latency, es', g)
         == TickedRecv(latency, es, g) + (if e.Tick? && g in rows then rows[g].recvTick else 0)
      && TickedLost(latency, es', g)
         == TickedLost(latency, es, g) + (if e.Tick? && g in rows then rows[g].lostTick else 0)
  {
    assert (es + [e])[..|es|] == es;
    assert Arrivals(es, g) + [] == Arrivals(es, g);
  }

  lemma MessageStep(latency: bool, es: seq<SubEvent>, e: SubEvent, g: Gid)
    requires GidMatches(latency, es, g) && e.Message?
    ensures GidMatches(latency, es + [e], g)
  {
    RunAppend(latency, es, e, g);
    var p, ss := Run(latency, es), Arrivals(es, g);
    TraceAppend(ss, e.seqNo);
    if g in p.tracks {
      NextMessage(p.tracks[g], Trace(ss), |ss|, TickedRecv(latency, es, g), TickedLost(latency, es, g),
                  latency, e.seqNo, e.size, e.oneway);
    } else {
      FirstMessage(|p.order| + 1, latency, e.seqNo, e.size, e.oneway);
    }
  }

  lemma SnapshotStep(latency: bool, es: seq<SubEvent>, e: SubEvent, g: Gid)
    requires GidMatches(latency, es, g) && !e.Message?
    ensures GidMatches(latency, es + [e], g)
  {
    RunAppend(latency, es, e, g);
    var p, ss := Run(latency, es), Arrivals(es, g);
    if e.Tick? && g in p.tracks {
      AfterTick(p.tracks[g], Trace(ss), |ss|, TickedRecv(latency, es, g), TickedLost(latency, es, g), latency);
    }
  }

  lemma {:induction false} RunInvariant(latency: bool, es: seq<SubEvent>, g: Gid)
    ensures GidMatches(latency, es, g)
  {
    if es != [] {
      var n := |es| - 1;
      RunInvariant(latency, es[..n], g);
      assert es == es[..n] + [es[n]];
      if es[n].Message? {
        MessageStep(latency, es[..n], es[n], g);
      } else {
        SnapshotStep(latency, es[..n], es[n], g);
      }
    }
  }

  lemma {:induction false} RunValid(latency: bool, es: seq<SubEvent>)
    ensures ValidPubs(Run(latency, es))
  {
    if es != [] {
      var n := |es| - 1;
      RunValid(latency, es[..n]);
      ApplyValid(Run(latency, es[..n]), latency, es[n]);
    }
  }

  lemma ApplyValid(p: Pubs, latency: bool, e: SubEvent)
    requires ValidPubs(p)
    ensures ValidPubs(Apply(p, latency, e))
  {
    match e
    case Message(g, seqNo, size, oneway) => OnMessageValid(p, latency, g, seqNo, size, oneway);
    case Tick => AfterSnapshotValid(p, latency, TickReset);
    case Summary => AfterSnapshotValid(p, latency, Totals);
  }

  /** Over every interleaving of messages and snapshots: a publisher's counters depend only on its own
      arrivals, and the ticks' reports together with what is pending add up to the totals. */
  lemma TicksAddUp(latency: bool, es: seq<SubEvent>, g: Gid)
    requires g in Run(latency, es).tracks
    ensures var t := Run(latency, es).tracks[g]; var ss := Arrivals(es, g);
      && ss != []
      && t.recv == |ss| && t.lost == Trace(ss).lost && t.lastSeq == Trace(ss).level
      && TickedRecv(latency, es, g) + t.recvTick == t.recv
      && TickedLost(latency, es, g) + t.lostTick == t.lost
  {
    RunInvariant(latency, es, g);
  }

  /** The tick counter of a publisher is the number of its arrivals since the last tick. */
  lemma {:induction false} RecvTickIsSinceTick(latency: bool, es: seq<SubEvent>, g: Gid)
    ensures var p := Run(latency, es);
      if g in p.tracks then p.tracks[g].recvTick == |SinceTick(es, g)| else SinceTick(es, g) == []
  {
    if es != [] {
      RecvTickIsSinceTick(latency, es[..|es| - 1], g);
    }
  }

  /** A tick passes over exactly the publishers from which nothing arrived since the last tick, and those
      have nothing pending: no loss and no latency sample. */
  lemma SkippedPublisherIsQuiet(latency: bool, es: seq<SubEvent>, g: Gid)
    requires g in Run(latency, es).tracks
    ensures var t := Run(latency, es).tracks[g];
      && t.recvTick == |SinceTick(es, g)|
      && (g !in RowMap(Run(latency, es).tracks, latency, TickReset) <==> SinceTick(es, g) == [])
      && (SinceTick(es, g) == [] ==> t.lostTick == 0 && t.lat.window == [])
  {
    RunInvariant(latency, es, g);
    RecvTickIsSinceTick(latency, es, g);
  }

  /** A totals snapshot lists every publisher once, numbered 1..n. */
  lemma TotalsNumberPublishers(latency: bool, es: seq<SubEvent>)
    ensures var p := Run(latency, es); var rows := SnapshotRows(p, latency, Totals);
      && |rows| == |p.order|
      && Distinct(p.order)
      && (forall g :: g in p.order <==> Arrivals(es, g) != [])
      && forall i :: 0 <= i < |rows| ==> rows[i].id == i + 1 && rows[i].gid == p.order[i]
  {
    RunValid(latency, es);
    var p := Run(latency, es);
    FullRows(p.order, RowMap(p.tracks, latency, Totals));
    forall g ensures g in p.order <==> Arrivals(es, g) != [] {
      RunInvariant(latency, es, g);
    }
  }

  /** The numbering is that of first arrivals: a message appends its publisher exactly when it is the first. */
  lemma OrderGrowsByFirstArrivals(latency: bool, es: seq<SubEvent>, e: SubEvent)
    ensures Run(latency, es + [e]).order
         == Run(latency, es).order + if e.Message? && Arrivals(es, e.g) == [] then [e.g] else []
  {
    assert (es + [e])[..|es|] == es;
    if e.Message? {
      RunInvariant(latency, es, e.g);
    }
  }

  // ---------------------------------------------------------------- the refinement to sets, below 2^32

  predicate Narrow(ss: seq<U64>) {
    forall i :: 0 <= i < |ss| ==> ss[i] < TWO_32
  }

  /** The numbers between the first arrival and the highest one that never arrived. */
  function Missing(ss: seq<U64>): set<nat>
    requires ss != []
  {
    Range(ss[0], Trace(ss).level + 1) - Trace(ss).received
  }

  /** The arrival s is not beyond everything that arrived before. */
  predicate IsLate(earlier: seq<U64>, s: U64) {
    exists i :: 0 <= i < |earlier| && s <= earlier[i]
  }

  /** The arrival s closes a gap: it lies above the first arrival and below an earlier one, and has not
      arrived before. */
  predicate FillsGap(earlier: seq<U64>, s: U64) {
    earlier != [] && earlier[0] < s && s !in earlier && IsLate(earlier, s)
  }

  /** How many arrivals were late, duplicates included. */
  function Lates(ss: seq<U64>): nat {
    if ss == [] then 0
    else
      var n := |ss| - 1;
      Lates(ss[..n]) + if IsLate(ss[..n], ss[n]) then 1 else 0
  }

  /** How many arrivals closed a gap. */
  function GapFills(ss: seq<U64>): nat {
    if ss == [] then 0
    else
      var n := |ss| - 1;
      GapFills(ss[..n]) + if FillsGap(ss[..n], ss[n]) then 1 else 0
  }

  predicate NoGapFilled(ss: seq<U64>) {
    forall j :: 0 <= j < |ss| ==> !FillsGap(ss[..j], ss[j])
  }

  lemma NoGapFilledAppend(ss: seq<U64>, s: U64)
    ensures NoGapFilled(ss + [s]) <==> NoGapFilled(ss) && !FillsGap(ss, s)
  {
    var ss' := ss + [s];
    assert ss'[..|ss|] == ss && ss'[|ss|] == s;
    assert forall j :: 0 <= j < |ss| ==> ss'[..j] == ss[..j] && ss'[j] == ss[j];
  }

  lemma {:induction false} GapFillsZero(ss: seq<U64>)
    ensures GapFills(ss) == 0 <==> NoGapFilled(ss)
  {
    if ss != [] {
      var n := |ss| - 1;
      GapFillsZero(ss[..n]);
      assert ss == ss[..n] + [ss[n]];
      NoGapFilledAppend(ss[..n], ss[n]);
    }
  }

  /** The meaning of a history of `count` arrivals that started at `first`. */
  ghost predicate Sound(h: History, first: nat, count: nat, lates: nat, fills: nat) {
    && first <= h.level
    && SoundSets(h.level, h.skipped, h.received, first)
    && SoundCounts(h, first, count, lates, fills)
  }

  /** Every skipped number was charged once, the span is accounted for, and the skipped numbers that have
      been received after all are those that closed a gap. */
  ghost predicate SoundCounts(h: History, first: nat, count: nat, lates: nat, fills: nat) {
    && |h.skipped| == h.lost
    && count + h.lost == h.level - first + 1 + lates
    && |h.skipped * h.received| == fills
  }

  /** The level is the highest received number, and every number from the first arrival up to it is
      received or skipped, skipped ones lying strictly between. */
  ghost predicate SoundSets(level: nat, skipped: set<nat>, received: set<nat>, first: nat) {
    && level in received
    && (forall k :: k in received ==> k <= level)
    && (forall k :: k in skipped ==> first < k < level)
    && (forall k :: first <= k <= level ==> k in received || k in skipped)
  }

  lemma LateIsBelow(level: nat, skipped: set<nat>, received: set<nat>, ss: seq<U64>, s: U64)
    requires ss != [] && SoundSets(level, skipped, received, ss[0])
    requires forall k: nat :: k in received <==> k in ss
    ensures IsLate(ss, s) <==> s <= level
  {
    if IsLate(ss, s) {
      var i :| 0 <= i < |ss| && s <= ss[i];
      assert ss[i] in ss && ss[i] in received;
    } else {
      var i :| 0 <= i < |ss| && ss[i] == level;
    }
  }

  lemma FillIsSkipped(level: nat, skipped: set<nat>, received: set<nat>, ss: seq<U64>, s: U64)
    requires ss != [] && SoundSets(level, skipped, received, ss[0])
    requires forall k: nat :: k in received <==> k in ss
    ensures FillsGap(ss, s) <==> s in skipped && s !in received
  {
    LateIsBelow(level, skipped, received, ss, s);
  }

  lemma SoundStep(h: History, ss: seq<U64>, lates: nat, fills: nat, s: U64)
    requires ss != [] && Sound(h, ss[0], |ss|, lates, fills) && s < TWO_32
    requires forall k: nat :: k in h.received <==> k in ss
    ensures Sound(Arrive(h, s), ss[0], |ss| + 1, lates + if IsLate(ss, s) then 1 else 0,
                  fills + if FillsGap(ss, s) then 1 else 0)
  {
    LateIsBelow(h.level, h.skipped, h.received, ss, s);
    FillIsSkipped(h.level, h.skipped, h.received, ss, s);
    if s > h.level {
      var jumped := ArriveAbove(h, s, ss[0]);
      AdvanceStep(h, ss[0], |ss|, lates, fills, s, jumped, Arrive(h, s));
    } else {
      LateStep(h, ss[0], |ss|, lates, fills, s);
    }
  }

  lemma LateStep(h: History, first: nat, count: nat, lates: nat, fills: nat, s: U64)
    requires Sound(h, first, count, lates, fills) && s <= h.level
    ensures Sound(Arrive(h, s), first, count + 1, lates + 1,
                  fills + if s in h.skipped && s !in h.received then 1 else 0)
  {
    LateSets(h.level, h.skipped, h.received, first, s);
    FillsTell(h.skipped, h.received, s);
  }

  lemma LateSets(level: nat, skipped: set<nat>, received: set<nat>, first: nat, s: nat)
    requires SoundSets(level, skipped, received, first) && s <= level
    ensures SoundSets(level, skipped, received + {s}, first)
  {
  }

  lemma FillsTell(skipped: set<nat>, received: set<nat>, s: nat)
    ensures |skipped * (received + {s})|
         == |skipped * received| + if s in skipped && s !in received then 1 else 0
  {
    var both := skipped * received;
    if s in skipped && s !in received {
      assert skipped * (received + {s}) == both + {s} && s !in both;
    } else {
      assert skipped * (received + {s}) == both;
    }
  }

  lemma AdvanceStep(h: History, first: nat, count: nat, lates: nat, fills: nat, s: U64, jumped: set<nat>, h': History)
    requires Sound(h, first, count, lates, fills) && h.level < s < TWO_32
    requires (forall k: nat :: k in jumped <==> h.level < k < s) && |jumped| == s - h.level - 1
    requires h'.level == s && h'.lost == h.lost + |jumped|
    requires h'.skipped == h.skipped + jumped && h'.received == h.received + {s}
    ensures s !in h.skipped && Sound(h', first, count + 1, lates, fills)
  {
    AdvanceSets(h.level, h.skipped, h.received, first, s, jumped);
    JumpIsNew(h.level, h.skipped, h.received, s, jumped);
  }

  lemma ArriveAbove(h: History, s: U64, first: nat) returns (jumped: set<nat>)
    requires h.level < s < TWO_32 && SoundSets(h.level, h.skipped, h.received, first)
    ensures (forall k: nat :: k in jumped <==> h.level < k < s) && |jumped| == s - h.level - 1
    ensures var h' := Arrive(h, s);
      && h'.level == s && h'.lost == h.lost + |jumped|
      && h'.skipped == h.skipped + jumped && h'.received == h.received + {s}
  {
    jumped := Range(h.level + 1, s);
    RangeSize(h.level + 1, s);
  }

  lemma AdvanceSets(level: nat, skipped: set<nat>, received: set<nat>, first: nat, s: nat, jumped: set<nat>)
    requires SoundSets(level, skipped, received, first) && first <= level < s
    requires forall k: nat :: k in jumped <==> level < k < s
    ensures SoundSets(s, skipped + jumped, received + {s}, first)
  {
  }

  lemma JumpIsNew(level: nat, skipped: set<nat>, received: set<nat>, s: nat, jumped: set<nat>)
    requires level < s && (forall k :: k in received ==> k <= level) && (forall k :: k in skipped ==> k < level)
    requires forall k: nat :: k in jumped <==> level < k < s
    ensures |skipped + jumped| == |skipped| + |jumped|
    ensures (skipped + jumped) * (received + {s}) == skipped * received
    ensures s !in skipped
  {
    DisjointUnion(skipped, jumped);
    assert jumped !! received + {s};
  }

  lemma DisjointUnion(a: set<nat>, b: set<nat>)
    requires a !! b
    ensures |a + b| == |a| + |b|
  {
  }

  lemma {:induction false} TraceReceived(ss: seq<U64>)
    requires ss != []
    ensures forall k :: k in Trace(ss).received <==> k in ss
  {
    if |ss| > 1 {
      TraceReceived(ss[..|ss| - 1]);
    }
  }

  lemma {:induction false} TraceSound(ss: seq<U64>)
    requires ss != [] && Narrow(ss)
    ensures Sound(Trace(ss), ss[0], |ss|, Lates(ss), GapFills(ss))
  {
    var n := |ss| - 1;
    if n > 0 {
      TraceSound(ss[..n]);
      TraceReceived(ss[..n]);
      SoundStep(Trace(ss[..n]), ss[..n], Lates(ss[..n]), GapFills(ss[..n]), ss[n]);
    } else {
      SoundStart(ss);
    }
  }

  lemma SoundStart(ss: seq<U64>)
    requires |ss| == 1 && Narrow(ss)
    ensures Sound(Start(ss[0]), ss[0], 1, Lates(ss), GapFills(ss))
  {
    assert ss[..0] == [] && Lates(ss[..0]) == 0 && GapFills(ss[..0]) == 0;
    assert {} * {ss[0]} == {};
  }

  /** For any order of delivery below 2^32, last_seq is the highest number seen. */
  lemma LastSeqIsMaximum(ss: seq<U64>)
    requires ss != [] && Narrow(ss)
    ensures Trace(ss).level in ss
    ensures forall k :: k in ss ==> k <= Trace(ss).level
  {
    TraceSound(ss);
    TraceReceived(ss);
  }

  /** The loss counter against the set of numbers never received, for any order of delivery below 2^32:
      it counts each missing number once, plus each arrival that closes a gap; it is exact if and only if
      no arrival ever does; and recv + lost is the span seen so far plus the late arrivals. */
  lemma LossRefinesMissing(ss: seq<U64>)
    requires ss != [] && Narrow(ss)
    ensures Trace(ss).lost == |Missing(ss)| + GapFills(ss)
    ensures Trace(ss).lost == |Missing(ss)| <==> forall j :: 0 <= j < |ss| ==> !FillsGap(ss[..j], ss[j])
    ensures |ss| + Trace(ss).lost == Trace(ss).level - ss[0] + 1 + Lates(ss)
  {
    TraceSound(ss);
    SkippedSplits(Trace(ss), ss[0], |ss|, Lates(ss), GapFills(ss));
    GapFillsZero(ss);
  }

  /** What is skipped is missing or has been received after all. */
  lemma SkippedSplits(h: History, first: nat, count: nat, lates: nat, fills: nat)
    requires Sound(h, first, count, lates, fills)
    ensures h.lost == |Range(first, h.level + 1) - h.received| + fills
  {
    var missing, recovered := Range(first, h.level + 1) - h.received, h.skipped * h.received;
    assert h.skipped == missing + recovered && missing !! recovered;
  }

  /** The overstatement is real: three messages, the last two swapped, and one counted lost for good. */
  lemma LossOverstated()
    ensures var ss: seq<U64> := [0, 2, 1]; Trace(ss).lost == 1 && Missing(ss) == {} && FillsGap(ss[..2], ss[2])
  {
  }

  predicate SomeAbove(ss: seq<U64>, k: nat) {
    exists i :: 0 <= i < |ss| && k < ss[i]
  }

  /** The missing numbers in terms of the delivery alone: those between the first arrival and some later
      one that did not arrive. */
  lemma MissingAre(ss: seq<U64>)
    requires ss != [] && Narrow(ss)
    ensures forall k :: k in Missing(ss) <==> ss[0] <= k && SomeAbove(ss, k) && k !in ss
  {
    LastSeqIsMaximum(ss);
    TraceReceived(ss);
    var last :| 0 <= last < |ss| && ss[last] == Trace(ss).level;
    forall k ensures k in Missing(ss) <==> ss[0] <= k && SomeAbove(ss, k) && k !in ss {
      if SomeAbove(ss, k) {
        var i :| 0 <= i < |ss| && k < ss[i];
        assert ss[i] in ss;
      }
      if k in Missing(ss) {
        assert k < ss[last];
      }
    }
  }

  /** The same laws for a publisher's track at any point of any run of the registry. */
  lemma RegistryLoss(latency: bool, es: seq<SubEvent>, g: Gid)
    requires g in Run(latency, es).tracks && Narrow(Arrivals(es, g))
    ensures var t := Run(latency, es).tracks[g]; var ss := Arrivals(es, g);
      && t.lastSeq in ss && (forall k: nat :: k in ss ==> k <= t.lastSeq)
      && t.lost == |Missing(ss)| + GapFills(ss)
      && (t.lost == |Missing(ss)| <==> forall j :: 0 <= j < |ss| ==> !FillsGap(ss[..j], ss[j]))
      && t.recv + t.lost == t.lastSeq - ss[0] + 1 + Lates(ss)
  {
    TicksAddUp(latency, es, g);
    LastSeqIsMaximum(Arrivals(es, g));
    LossRefinesMissing(Arrivals(es, g));
  }

  predicate Increasing(ss: seq<U64>) {
    forall i, j :: 0 <= i < j < |ss| ==> ss[i] < ss[j]
  }

  lemma {:induction false} InOrderFacts(ss: seq<U64>)
    requires ss != [] && Narrow(ss) && Increasing(ss)
    ensures Trace(ss).level == ss[|ss| - 1] && |Trace(ss).received| == |ss|
    ensures Lates(ss) == 0 && GapFills(ss) == 0
  {
    var n := |ss| - 1;
    if n > 0 {
      InOrderFacts(ss[..n]);
      TraceSound(ss[..n]);
      assert ss[n - 1] < ss[n];
      assert !IsLate(ss[..n], ss[n]);
    } else {
      SoundStart(ss);
    }
  }

  /** End to end, over an order-preserving network that may lose but not duplicate: the messages 0 ..
      published-1 fall into those before the first delivery, those received, those counted lost and those
      after the last delivery, each counted exactly. */
  lemma EndToEnd(published: nat, ss: seq<U64>)
    requires ss != [] && Increasing(ss) && published <= TWO_32
    requires forall i :: 0 <= i < |ss| ==> ss[i] < published
    ensures published == ss[0] + |ss| + Trace(ss).lost + (published - 1 - ss[|ss| - 1])
    ensures Trace(ss).lost == |Missing(ss)| && |ss| == |Trace(ss).received|
    ensures var before, after := Range(0, ss[0]), Range(ss[|ss| - 1] + 1, published);
      && before !! Trace(ss).received !! Missing(ss) !! after
      && Range(0, published) == before + Trace(ss).received + Missing(ss) + after
  {
    InOrderCounts(ss);
    InOrderParts(published, ss);
  }

  /** The same conservation law read off a publisher's row, at any point of any run of the registry. */
  lemma RowConserves(latency: bool, es: seq<SubEvent>, g: Gid, published: nat)
    requires g in Run(latency, es).tracks
    requires Increasing(Arrivals(es, g)) && published <= TWO_32
    requires forall i :: 0 <= i < |Arrivals(es, g)| ==> Arrivals(es, g)[i] < published
    ensures var t := Run(latency, es).tracks[g]; var ss := Arrivals(es, g);
      && ss != [] && t.lastSeq == ss[|ss| - 1] < published
      && published == ss[0] + t.recv + t.lost + (published - 1 - t.lastSeq)
      && t.lost == |Missing(ss)|
  {
    TicksAddUp(latency, es, g);
    TrackConserves(Run(latency, es).tracks[g], Arrivals(es, g), published);
  }

  lemma TrackConserves(t: PubTrack, ss: seq<U64>, published: nat)
    requires ss != [] && t.recv == |ss| && t.lost == Trace(ss).lost && t.lastSeq == Trace(ss).level
    requires Increasing(ss) && published <= TWO_32
    requires forall i :: 0 <= i < |ss| ==> ss[i] < published
    ensures t.lastSeq == ss[|ss| - 1] < published && t.lost == |Missing(ss)|
    ensures published == ss[0] + t.recv + t.lost + (published - 1 - t.lastSeq)
  {
    InOrderFacts(ss);
    InOrderCounts(ss);
  }

  lemma InOrderCounts(ss: seq<U64>)
    requires ss != [] && Narrow(ss) && Increasing(ss)
    ensures |ss| + Trace(ss).lost == ss[|ss| - 1] - ss[0] + 1
    ensures Trace(ss).lost == |Missing(ss)| && |ss| == |Trace(ss).received|
  {
    InOrderFacts(ss);
    LossRefinesMissing(ss);
  }

  lemma InOrderParts(published: nat, ss: seq<U64>)
    requires ss != [] && Narrow(ss) && Increasing(ss) && ss[|ss| - 1] < published
    ensures var before, after := Range(0, ss[0]), Range(ss[|ss| - 1] + 1, published);
      && before !! Trace(ss).received !! Missing(ss) !! after
      && Range(0, published) == before + Trace(ss).received + Missing(ss) + after
  {
    InOrderFacts(ss);
    var first, last, received := ss[0], ss[|ss| - 1], Trace(ss).received;
    ReceivedWithin(ss, received);
    FourParts(received, first, last, published);
  }

  lemma ReceivedWithin(ss: seq<U64>, received: set<nat>)
    requires ss != [] && Increasing(ss) && received == Trace(ss).received
    ensures ss[0] <= ss[|ss| - 1]
    ensures forall k: nat :: k in received ==> ss[0] <= k <= ss[|ss| - 1]
  {
    TraceReceived(ss);
    assert ss[0] in Trace(ss).received;
    forall k | k in received ensures ss[0] <= k <= ss[|ss| - 1] {
      var i :| 0 <= i < |ss| && ss[i] == k;
    }
  }

  lemma FourParts(received: set<nat>, first: nat, last: nat, published: nat)
    requires first <= last < published && forall k: nat :: k in received ==> first <= k <= last
    ensures Range(0, first) !! received !! (Range(first, last + 1) - received) !! Range(last + 1, published)
    ensures Range(0, published)
         == Range(0, first) + received + (Range(first, last + 1) - received) + Range(last + 1, published)
  {
  }

  // ---------------------------------------------------------------- at and beyond 2^32

  /** An uninterrupted, in-order delivery of n messages. */
  function Consecutive(first: nat, n: nat): seq<U64>
    requires first + n <= TWO_64
  {
    seq(n, i requires 0 <= i < n => first + i)
  }

  lemma {:induction false} LevelOfConsecutive(first: nat, n: nat)
    requires 0 < n && first + n <= TWO_64 && first + n - 1 < TWO_32
    ensures Trace(Consecutive(first, n)).level == first + n - 1
  {
    if n > 1 {
      LevelOfConsecutive(first, n - 1);
      assert Consecutive(first, n)[..n - 1] == Consecutive(first, n - 1);
    }
  }

  /** Because last_seq keeps only 32 bits, a perfect delivery is reported lossless exactly up to and
      including sequence number 2^32; from the next message on the counter jumps. */
  lemma {:induction false} PerfectDeliveryLossless(first: nat, n: nat)
    requires 0 < n && first + n <= TWO_64
    ensures Trace(Consecutive(first, n)).lost == 0 <==> n == 1 || first + n - 1 <= TWO_32
  {
    if n > 1 {
      PerfectDeliveryLossless(first, n - 1);
      var ss := Consecutive(first, n);
      assert ss[..n - 1] == Consecutive(first, n - 1);
      if first + n - 1 <= TWO_32 {
        LevelOfConsecutive(first, n - 1);
      } else {
        assert Trace(ss[..n - 1]).level < TWO_32 <= first + n - 2;
      }
    }
  }
}
