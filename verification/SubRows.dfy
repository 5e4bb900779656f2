/** What the subscriber's rows say, in terms of the messages alone: over every interleaving of messages and
    snapshots, each figure and each latency summary of a tick row or a totals row. */
module SubRows {
  import opened LossAccounting
  import opened Report
  import opened Sorting
  import Stats
  import opened SubRegistry
  import opened Wire

  // ---------------------------------------------------------------- the messages of one publisher

  /** The latencies of a publisher's messages, in order of arrival; a negative one says that there is none. */
  function Oneways(es: seq<SubEvent>, g: Gid): seq<int> {
    if es == [] then []
    else
      var e := es[|es| - 1];
      Oneways(es[..|es| - 1], g) + if e.Message? && e.g == g && e.oneway >= 0 then [e.oneway] else []
  }

  /** Those of them that arrived after the last tick. */
  function OnewaysSinceTick(es: seq<SubEvent>, g: Gid): seq<int> {
    if es == [] || es[|es| - 1].Tick? then []
    else
      var e := es[|es| - 1];
      OnewaysSinceTick(es[..|es| - 1], g) + if e.Message? && e.g == g && e.oneway >= 0 then [e.oneway] else []
  }

  function Sizes(es: seq<SubEvent>, g: Gid): seq<nat> {
    if es == [] then []
    else
      var e := es[|es| - 1];
      Sizes(es[..|es| - 1], g) + if e.Message? && e.g == g then [e.size] else []
  }

  function Total(xs: seq<nat>): nat {
    if xs == [] then 0 else Total(xs[..|xs| - 1]) + xs[|xs| - 1]
  }

  /** The events up to the last tick. */
  function UntilTick(es: seq<SubEvent>): seq<SubEvent> {
    if es == [] || es[|es| - 1].Tick? then es else UntilTick(es[..|es| - 1])
  }

  /** The loss counted for some arrivals. */
  function LossOf(ss: seq<U64>): nat {
    if ss == [] then 0 else Trace(ss).lost
  }

  // ---------------------------------------------------------------- what a track stores

  /** The samples kept of a list: the first 200000, and none unless latency is reported. */
  function Kept(latency: bool, xs: seq<int>): seq<int> {
    if latency then Stats.Take(xs, 200_000) else []
  }

  ghost predicate Stores(t: PubTrack, latency: bool, all: seq<int>, recent: seq<int>, sizes: seq<nat>) {
    && t.lat.total == Kept(latency, all) && t.lat.window == Kept(latency, recent)
    && sizes != [] && t.totalBytes == Total(sizes) && t.lastSize == sizes[|sizes| - 1] % 0x1_0000_0000
  }

  lemma TotalAppend(xs: seq<nat>, x: nat)
    ensures Total(xs + [x]) == Total(xs) + x
  {
    assert (xs + [x])[..|xs|] == xs;
  }

  /** The publisher g in p: heard, with these latencies and sizes, or not heard at all. */
  ghost predicate GidStores(p: Pubs, latency: bool, g: Gid, all: seq<int>, recent: seq<int>, sizes: seq<nat>) {
    if g in p.tracks then Stores(p.tracks[g], latency, all, recent, sizes)
    else all == [] && recent == [] && sizes == []
  }

  lemma NextStored(t: PubTrack, latency: bool, all: seq<int>, recent: seq<int>, sizes: seq<nat>,
                   seqNo: U64, size: nat, oneway: int)
    requires Stores(t, latency, all, recent, sizes)
    ensures var t' := AddLatency(CountMessage(t, seqNo, size), latency, oneway);
      if oneway >= 0 then Stores(t', latency, all + [oneway], recent + [oneway], sizes + [size])
      else Stores(t', latency, all, recent, sizes + [size])
  {
    TotalAppend(sizes, size);
  }

  lemma FirstStored(id: nat, latency: bool, seqNo: U64, size: nat, oneway: int)
    ensures var t := AddLatency(NewTrack(id, seqNo, size), latency, oneway);
      if oneway >= 0 then Stores(t, latency, [oneway], [oneway], [size]) else Stores(t, latency, [], [], [size])
  {
    TotalAppend([], size);
    assert [] + [size] == [size];
  }

  /** One more message of g itself. */
  lemma MessageStored(p: Pubs, latency: bool, e: SubEvent, all: seq<int>, recent: seq<int>, sizes: seq<nat>)
    requires e.Message? && GidStores(p, latency, e.g, all, recent, sizes)
    ensures var p' := Apply(p, latency, e);
      if e.oneway >= 0 then GidStores(p', latency, e.g, all + [e.oneway], recent + [e.oneway], sizes + [e.size])
      else GidStores(p', latency, e.g, all, recent, sizes + [e.size])
  {
    if e.g in p.tracks {
      NextStored(p.tracks[e.g], latency, all, recent, sizes, e.seqNo, e.size, e.oneway);
    } else {
      FirstStored(|p.order| + 1, latency, e.seqNo, e.size, e.oneway);
      assert [] + [e.oneway] == [e.oneway] && [] + [e.size] == [e.size];
    }
  }

  lemma TickStored(t: PubTrack, latency: bool, all: seq<int>, recent: seq<int>, sizes: seq<nat>)
    requires Stores(t, latency, all, recent, sizes)
    requires !Reported(t, TickReset) ==> t.lat.window == []
    ensures Stores(TrackAfter(t, latency, TickReset), latency, all, [], sizes)
  {
  }

  /** What one more event adds to the lists of g. */
  lemma AppendEvent(latency: bool, es: seq<SubEvent>, e: SubEvent, g: Gid)
    ensures var es', ours := es + [e], e.Message? && e.g == g;
      && Run(latency, es') == Apply(Run(latency, es), latency, e)
      && Oneways(es', g) == (if ours && e.oneway >= 0 then Oneways(es, g) + [e.oneway] else Oneways(es, g))
      && Sizes(es', g) == (if ours then Sizes(es, g) + [e.size] else Sizes(es, g))
      && OnewaysSinceTick(es', g) ==
         if e.Tick? then []
         else if ours && e.oneway >= 0 then OnewaysSinceTick(es, g) + [e.oneway] else OnewaysSinceTick(es, g)
  {
    assert (es + [e])[..|es|] == es;
    assert Oneways(es, g) + [] == Oneways(es, g) && Sizes(es, g) + [] == Sizes(es, g);
    assert OnewaysSinceTick(es, g) + [] == OnewaysSinceTick(es, g);
  }

  lemma EventStored(latency: bool, es: seq<SubEvent>, e: SubEvent, g: Gid, p: Pubs,
                    all: seq<int>, recent: seq<int>, sizes: seq<nat>)
    requires p == Run(latency, es) && GidStores(p, latency, g, all, recent, sizes)
    requires !(e.Message? && e.g == g)
    ensures GidStores(Apply(p, latency, e), latency, g, all, if e.Tick? then [] else recent, sizes)
  {
    if g in p.tracks && e.Tick? {
      SkippedPublisherIsQuiet(latency, es, g);
      TickStored(p.tracks[g], latency, all, recent, sizes);
    }
  }

  lemma {:induction false} RunStores(latency: bool, es: seq<SubEvent>, g: Gid)
    ensures GidStores(Run(latency, es), latency, g, Oneways(es, g), OnewaysSinceTick(es, g), Sizes(es, g))
  {
    if es != [] {
      var n := |es| - 1;
      var before, e := es[..n], es[n];
      RunStores(latency, before, g);
      assert es == before + [e];
      AppendEvent(latency, before, e, g);
      var p := Run(latency, before);
      if e.Message? && e.g == g {
        MessageStored(p, latency, e, Oneways(before, g), OnewaysSinceTick(before, g), Sizes(before, g));
      } else {
        EventStored(latency, before, e, g, p, Oneways(before, g), OnewaysSinceTick(before, g), Sizes(before, g));
      }
    }
  }

  /** What a publisher's track holds at any point of any run: with latency reported, the first 200000 latencies
      that it sent and the first 200000 of those since the last tick, without it none; and its bytes. */
  lemma StoredSamples(latency: bool, es: seq<SubEvent>, g: Gid)
    requires g in Run(latency, es).tracks
    ensures var t := Run(latency, es).tracks[g]; var all, recent := Oneways(es, g), OnewaysSinceTick(es, g);
      && (latency ==> t.lat.total == Stats.Take(all, 200_000) && t.lat.window == Stats.Take(recent, 200_000))
      && (!latency ==> t.lat.total == [] && t.lat.window == [])
      && Sizes(es, g) != []
      && t.totalBytes == Total(Sizes(es, g))
      && t.lastSize == Sizes(es, g)[|Sizes(es, g)| - 1] % 0x1_0000_0000
  {
    RunStores(latency, es, g);
  }

  // ---------------------------------------------------------------- the loss of one tick

  /** In p, the loss of g not yet reported is what lies beyond `base`. */
  ghost predicate GidLostSince(p: Pubs, g: Gid, base: nat) {
    if g in p.tracks then p.tracks[g].lost == base + p.tracks[g].lostTick else base == 0
  }

  lemma LostStep(p: Pubs, latency: bool, e: SubEvent, g: Gid, base: nat)
    requires GidLostSince(p, g, base)
    ensures GidLostSince(Apply(p, latency, e), g,
                         if e.Tick? then if g in p.tracks then p.tracks[g].lost else 0 else base)
  {
  }

  lemma LossOfTrack(latency: bool, es: seq<SubEvent>, g: Gid)
    ensures LossOf(Arrivals(es, g)) == if g in Run(latency, es).tracks then Run(latency, es).tracks[g].lost else 0
  {
    RunInvariant(latency, es, g);
  }

  lemma ArrivalsOverTick(es: seq<SubEvent>, e: SubEvent, g: Gid)
    ensures UntilTick(es + [e]) == if e.Tick? then es + [e] else UntilTick(es)
    ensures e.Tick? ==> Arrivals(es + [e], g) == Arrivals(es, g)
  {
    assert (es + [e])[..|es|] == es;
    assert Arrivals(es, g) + [] == Arrivals(es, g);
  }

  /** The tick counter of a publisher's loss is the loss counted since the last tick. */
  lemma {:induction false} LostTickIsSinceTick(latency: bool, es: seq<SubEvent>, g: Gid)
    ensures GidLostSince(Run(latency, es), g, LossOf(Arrivals(UntilTick(es), g)))
  {
    if es != [] {
      var n := |es| - 1;
      var before, e := es[..n], es[n];
      LostTickIsSinceTick(latency, before, g);
      assert es == before + [e];
      ArrivalsOverTick(before, e, g);
      LossOfTrack(latency, before, g);
      LostStep(Run(latency, before), latency, e, g, LossOf(Arrivals(UntilTick(before), g)));
    }
  }

  // ---------------------------------------------------------------- the rows

  /** The figures that both kinds of rows give. */
  ghost predicate RowTotals(r: PubRow, es: seq<SubEvent>) {
    var sizes := Sizes(es, r.gid);
    && r.recvTotal == |Arrivals(es, r.gid)| && r.lostTotal == LossOf(Arrivals(es, r.gid))
    && sizes != [] && r.totalBytes == Total(sizes) && r.lastSize == sizes[|sizes| - 1] % 0x1_0000_0000
  }

  ghost predicate TickRow(r: PubRow, latency: bool, es: seq<SubEvent>) {
    var recent := OnewaysSinceTick(es, r.gid);
    && RowTotals(r, es)
    && r.recvTick == |SinceTick(es, r.gid)|
    && r.lostTick == LossOf(Arrivals(es, r.gid)) - LossOf(Arrivals(UntilTick(es), r.gid))
    && (r.hasLatWindow <==> latency && recent != [])
    && (r.hasLatWindow ==> Stats.IsSummary(r.latWindow, Stats.Take(recent, 200_000)))
    && !r.hasLatTotal
  }

  ghost predicate TotalsRow(r: PubRow, latency: bool, es: seq<SubEvent>) {
    var all := Oneways(es, r.gid);
    && RowTotals(r, es)
    && (r.hasLatTotal <==> latency && all != [])
    && (r.hasLatTotal ==> Stats.IsSummary(r.latTotal, Stats.Take(all, 200_000)))
    && !r.hasLatWindow
  }

  /** The row bears the number of its publisher in the order of first messages. */
  predicate Numbered(r: PubRow, order: seq<Gid>) {
    1 <= r.id <= |order| && order[r.id - 1] == r.gid
  }

  lemma IdIsPosition(p: Pubs, latency: bool, g: Gid, kind: SnapshotKind)
    requires ValidPubs(p) && g in p.tracks
    ensures Numbered(RowOf(g, p.tracks[g], latency, kind), p.order)
  {
    var i :| 0 <= i < |p.order| && p.order[i] == g;
  }

  lemma TickRowOf(latency: bool, es: seq<SubEvent>, g: Gid)
    requires g in Run(latency, es).tracks
    ensures TickRow(RowOf(g, Run(latency, es).tracks[g], latency, TickReset), latency, es)
  {
    StoredSamples(latency, es, g);
    TicksAddUp(latency, es, g);
    RecvTickIsSinceTick(latency, es, g);
    LostTickIsSinceTick(latency, es, g);
  }

  lemma TotalsRowOf(latency: bool, es: seq<SubEvent>, g: Gid)
    requires g in Run(latency, es).tracks
    ensures TotalsRow(RowOf(g, Run(latency, es).tracks[g], latency, Totals), latency, es)
  {
    StoredSamples(latency, es, g);
    TicksAddUp(latency, es, g);
  }

  /** The rows of a snapshot are those of the publishers it reports, in the order of their first messages. */
  lemma RowsOfPubs(p: Pubs, latency: bool, kind: SnapshotKind)
    requires ValidPubs(p)
    ensures var rows := SnapshotRows(p, latency, kind);
      && StrictlyAscending(rows, RowId)
      && (forall r :: r in rows ==> r.gid in RowMap(p.tracks, latency, kind) && Numbered(r, p.order)
                                    && r == RowOf(r.gid, p.tracks[r.gid], latency, kind))
      && (forall g :: g in RowMap(p.tracks, latency, kind) ==> exists r :: r in rows && r.gid == g)
  {
    var rows := RowMap(p.tracks, latency, kind);
    RowsAscending(p.order, rows, RowId);
    RowsHold(p.order, rows);
    forall r | r in Rows(p.order, rows)
      ensures r.gid in rows && Numbered(r, p.order) && r == RowOf(r.gid, p.tracks[r.gid], latency, kind)
    {
      var g :| g in p.order && g in rows && rows[g] == r;
      IdIsPosition(p, latency, g, kind);
    }
    forall g | g in rows ensures exists r :: r in Rows(p.order, rows) && r.gid == g {
      assert g in p.order && rows[g] in Rows(p.order, rows);
    }
  }

  lemma ReportedWhenHeard(latency: bool, es: seq<SubEvent>, g: Gid)
    ensures g in RowMap(Run(latency, es).tracks, latency, TickReset) <==> SinceTick(es, g) != []
    ensures g in RowMap(Run(latency, es).tracks, latency, Totals) <==> Arrivals(es, g) != []
  {
    RunInvariant(latency, es, g);
    RecvTickIsSinceTick(latency, es, g);
  }

  /** A tick prints a row for each publisher heard since the last tick and for no other, in first-heard order. */
  lemma TickRows(latency: bool, es: seq<SubEvent>)
    ensures var rows := SnapshotRows(Run(latency, es), latency, TickReset);
      && StrictlyAscending(rows, RowId)
      && (forall r :: r in rows ==>
            SinceTick(es, r.gid) != [] && Numbered(r, Run(latency, es).order) && TickRow(r, latency, es))
      && (forall g :: SinceTick(es, g) != [] ==> exists r :: r in rows && r.gid == g)
  {
    var p := Run(latency, es);
    var rows := SnapshotRows(p, latency, TickReset);
    RunValid(latency, es);
    RowsOfPubs(p, latency, TickReset);
    forall r | r in rows ensures SinceTick(es, r.gid) != [] && TickRow(r, latency, es) {
      ReportedWhenHeard(latency, es, r.gid);
      TickRowOf(latency, es, r.gid);
    }
    forall g | SinceTick(es, g) != [] ensures exists r :: r in rows && r.gid == g {
      ReportedWhenHeard(latency, es, g);
    }
  }

  /** The summary prints a row for each publisher ever heard, in first-heard order. */
  lemma TotalsRows(latency: bool, es: seq<SubEvent>)
    ensures var rows := SnapshotRows(Run(latency, es), latency, Totals);
      && StrictlyAscending(rows, RowId)
      && (forall r :: r in rows ==>
            Arrivals(es, r.gid) != [] && Numbered(r, Run(latency, es).order) && TotalsRow(r, latency, es))
      && (forall g :: Arrivals(es, g) != [] ==> exists r :: r in rows && r.gid == g)
  {
    var p := Run(latency, es);
    var rows := SnapshotRows(p, latency, Totals);
    RunValid(latency, es);
    RowsOfPubs(p, latency, Totals);
    forall r | r in rows ensures Arrivals(es, r.gid) != [] && TotalsRow(r, latency, es) {
      ReportedWhenHeard(latency, es, r.gid);
      TotalsRowOf(latency, es, r.gid);
    }
    forall g | Arrivals(es, g) != [] ensures exists r :: r in rows && r.gid == g {
      ReportedWhenHeard(latency, es, g);
    }
  }
}
