/** What the rows of the ping node's registry say, in terms of the pongs alone: which pongs are accepted, and
    which half round trips a tick row or a totals row summarises, over every interleaving of pongs and snapshots. */
module PongRows {
  import opened PongPeers
  import opened Sorting
  import Stats
  import opened Wire

  datatype RegistryEvent =
    | Pong(g: Gid, seqNo: U64, rtt: int)
    | Snapshot(kind: SnapshotKind)

  function Apply(p: Pongs, e: RegistryEvent): Pongs {
    match e
    case Pong(g, seqNo, rtt) => OnPong(p, g, seqNo, rtt)
    case Snapshot(kind) => AfterSnapshot(p, kind)
  }

  function Run(es: seq<RegistryEvent>): Pongs {
    if es == [] then NO_PONGS else Apply(Run(es[..|es| - 1]), es[|es| - 1])
  }

  predicate PongOf(e: RegistryEvent, g: Gid) { e.Pong? && e.g == g }

  predicate Heard(es: seq<RegistryEvent>, g: Gid) {
    exists i :: 0 <= i < |es| && PongOf(es[i], g)
  }

  /** The number lies, as a signed one, beyond every number that the peer has sent. */
  predicate Advances(es: seq<RegistryEvent>, g: Gid, seqNo: U64) {
    forall i :: 0 <= i < |es| && PongOf(es[i], g) ==> ToInt64(es[i].seqNo) < ToInt64(seqNo)
  }

  /** The pong after es carries a sample: its number advances and its round trip is not negative. */
  predicate Samples(es: seq<RegistryEvent>, e: RegistryEvent, g: Gid) {
    PongOf(e, g) && Advances(es, g, e.seqNo) && e.rtt >= 0
  }

  /** The half round trips of a peer's pongs that advanced, in order. */
  function Rtts(es: seq<RegistryEvent>, g: Gid): seq<int> {
    if es == [] then []
    else
      var n := |es| - 1;
      Rtts(es[..n], g) + if Samples(es[..n], es[n], g) then [es[n].rtt] else []
  }

  predicate IsTick(e: RegistryEvent) { e.Snapshot? && e.kind.TickReset? }

  /** Those of them since the last tick. */
  function RttsSinceTick(es: seq<RegistryEvent>, g: Gid): seq<int> {
    if es == [] || IsTick(es[|es| - 1]) then []
    else
      var n := |es| - 1;
      RttsSinceTick(es[..n], g) + if Samples(es[..n], es[n], g) then [es[n].rtt] else []
  }

  // ---------------------------------------------------------------- which pongs are accepted

  ghost predicate LastIsHighest(p: Pongs, es: seq<RegistryEvent>, g: Gid) {
    && (g in p.tracks <==> Heard(es, g))
    && (g in p.tracks ==>
          && (exists i :: 0 <= i < |es| && PongOf(es[i], g) && es[i].seqNo == p.tracks[g].lastSeq)
          && forall i :: 0 <= i < |es| && PongOf(es[i], g) ==> ToInt64(es[i].seqNo) <= ToInt64(p.tracks[g].lastSeq))
  }

  lemma HighestStep(p: Pongs, es: seq<RegistryEvent>, e: RegistryEvent, g: Gid)
    requires LastIsHighest(p, es, g)
    ensures LastIsHighest(Apply(p, e), es + [e], g)
  {
    var es' := es + [e];
    assert es'[|es|] == e && forall i :: 0 <= i < |es| ==> es'[i] == es[i];
    if g in p.tracks {
      var i :| 0 <= i < |es| && PongOf(es[i], g) && es[i].seqNo == p.tracks[g].lastSeq;
      assert PongOf(es'[i], g);
    }
  }

  lemma {:induction false} RunHighest(es: seq<RegistryEvent>, g: Gid)
    ensures LastIsHighest(Run(es), es, g)
  {
    if es != [] {
      var n := |es| - 1;
      RunHighest(es[..n], g);
      HighestStep(Run(es[..n]), es[..n], es[n], g);
      assert es == es[..n] + [es[n]];
    }
  }

  /** A pong is accepted exactly when its number advances, whatever snapshots were taken. */
  lemma AcceptsAdvancing(es: seq<RegistryEvent>, g: Gid, seqNo: U64)
    ensures Accepts(Run(es), g, seqNo) <==> Advances(es, g, seqNo)
    ensures g in Run(es).tracks <==> Heard(es, g)
  {
    RunHighest(es, g);
  }

  // ---------------------------------------------------------------- what is stored

  ghost predicate GidStores(p: Pongs, g: Gid, all: seq<int>, recent: seq<int>) {
    if g in p.tracks then
      p.tracks[g].lat.total == Stats.Take(all, 200_000) && p.tracks[g].lat.window == Stats.Take(recent, 200_000)
    else all == [] && recent == []
  }

  lemma PongStored(p: Pongs, e: RegistryEvent, g: Gid, all: seq<int>, recent: seq<int>)
    requires GidStores(p, g, all, recent) && e.Pong?
    ensures var sample := e.g == g && Accepts(p, g, e.seqNo) && e.rtt >= 0;
      if sample then GidStores(Apply(p, e), g, all + [e.rtt], recent + [e.rtt])
      else GidStores(Apply(p, e), g, all, recent)
  {
    assert [] + [e.rtt] == [e.rtt];
  }

  lemma SnapshotStored(p: Pongs, kind: SnapshotKind, g: Gid, all: seq<int>, recent: seq<int>)
    requires GidStores(p, g, all, recent)
    ensures GidStores(AfterSnapshot(p, kind), g, all, if kind.TickReset? then [] else recent)
  {
  }

  lemma AppendEvent(es: seq<RegistryEvent>, e: RegistryEvent, g: Gid)
    ensures var es', sample := es + [e], Samples(es, e, g);
      && Run(es') == Apply(Run(es), e)
      && Rtts(es', g) == (if sample then Rtts(es, g) + [e.rtt] else Rtts(es, g))
      && RttsSinceTick(es', g) ==
         if IsTick(e) then [] else if sample then RttsSinceTick(es, g) + [e.rtt] else RttsSinceTick(es, g)
  {
    assert (es + [e])[..|es|] == es;
    assert Rtts(es, g) + [] == Rtts(es, g) && RttsSinceTick(es, g) + [] == RttsSinceTick(es, g);
  }

  lemma {:induction false} RunStores(es: seq<RegistryEvent>, g: Gid)
    ensures GidStores(Run(es), g, Rtts(es, g), RttsSinceTick(es, g))
  {
    if es != [] {
      var n := |es| - 1;
      var before, e := es[..n], es[n];
      RunStores(before, g);
      assert es == before + [e];
      AppendEvent(before, e, g);
      match e
      case Pong(_, _, _) =>
        AcceptsAdvancing(before, g, e.seqNo);
        PongStored(Run(before), e, g, Rtts(before, g), RttsSinceTick(before, g));
      case Snapshot(kind) => SnapshotStored(Run(before), kind, g, Rtts(before, g), RttsSinceTick(before, g));
    }
  }

  lemma {:induction false} RunValid(es: seq<RegistryEvent>)
    ensures ValidPongs(Run(es))
  {
    if es != [] {
      var n := |es| - 1;
      RunValid(es[..n]);
      match es[n]
      case Pong(g, seqNo, rtt) => OnPongValid(Run(es[..n]), g, seqNo, rtt);
      case Snapshot(kind) => AfterSnapshotValid(Run(es[..n]), kind);
    }
  }

  // ---------------------------------------------------------------- the rows

  /** The row bears the number of its peer in the order of first pongs. */
  predicate Numbered(r: PongRow, order: seq<Gid>) {
    1 <= r.id <= |order| && order[r.id - 1] == r.gid
  }

  /** A tick gives each peer a row: its window summarises the first 200000 samples since the last tick. */
  ghost predicate TickRow(r: PongRow, es: seq<RegistryEvent>) {
    var recent := RttsSinceTick(es, r.gid);
    && (r.hasLatWindow <==> recent != []) && Stats.IsSummary(r.latWindow, Stats.Take(recent, 200_000))
    && !r.hasLatTotal
  }

  /** The summary's row is about the first 200000 samples since the start. */
  ghost predicate TotalsRow(r: PongRow, es: seq<RegistryEvent>) {
    var all := Rtts(es, r.gid);
    && (r.hasLatTotal <==> all != []) && Stats.IsSummary(r.latTotal, Stats.Take(all, 200_000))
    && !r.hasLatWindow
  }

  lemma IdIsPosition(p: Pongs, g: Gid, kind: SnapshotKind)
    requires ValidPongs(p) && g in p.tracks
    ensures Numbered(RowOf(g, p.tracks[g], kind), p.order)
  {
    var i :| 0 <= i < |p.order| && p.order[i] == g;
  }

  ghost predicate RowSays(r: PongRow, es: seq<RegistryEvent>, kind: SnapshotKind) {
    if kind.TickReset? then TickRow(r, es) else TotalsRow(r, es)
  }

  lemma RowOfPeer(es: seq<RegistryEvent>, g: Gid, kind: SnapshotKind)
    requires g in Run(es).tracks
    ensures Heard(es, g) && Numbered(RowOf(g, Run(es).tracks[g], kind), Run(es).order)
    ensures RowSays(RowOf(g, Run(es).tracks[g], kind), es, kind)
  {
    RunValid(es);
    RunHighest(es, g);
    RunStores(es, g);
    IdIsPosition(Run(es), g, kind);
  }

  /** The rows of a snapshot: one for each peer heard, in the order of their first pongs, and each says which of
      the peer's accepted pongs it is about. */
  lemma RowsSay(es: seq<RegistryEvent>, kind: SnapshotKind)
    ensures var rows := SnapshotRows(Run(es), kind);
      && StrictlyAscending(rows, RowId)
      && (forall r :: r in rows ==> Heard(es, r.gid) && Numbered(r, Run(es).order) && RowSays(r, es, kind))
      && (forall g :: Heard(es, g) ==> exists r :: r in rows && r.gid == g)
  {
    var p := Run(es);
    var rows := SnapshotRows(p, kind);
    RunValid(es);
    RowsOfPeers(p, kind);
    forall r | r in rows ensures Heard(es, r.gid) && Numbered(r, p.order) && RowSays(r, es, kind) {
      RowOfPeer(es, r.gid, kind);
    }
    forall g | Heard(es, g) ensures exists r :: r in rows && r.gid == g {
      AcceptsAdvancing(es, g, 0);
      assert RowOf(g, p.tracks[g], kind) in rows;
    }
  }

  /** A peer is numbered when its first pong arrives. */
  lemma OrderGrowsByFirstPongs(es: seq<RegistryEvent>, e: RegistryEvent)
    ensures Run(es + [e]).order == Run(es).order + if e.Pong? && !Heard(es, e.g) then [e.g] else []
  {
    assert (es + [e])[..|es|] == es;
    if e.Pong? {
      RunHighest(es, e.g);
    }
  }
}
