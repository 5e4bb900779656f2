/** The subscriber's per-publisher accounting (the registry part of sub_mode.cpp). */
module SubRegistry {
  import opened Report
  import opened Sorting
  import opened Stats
  import opened Wire

  /** lastSeq and lastSize are 32-bit fields; the 64-bit counters are unbounded here. */
  datatype PubTrack = PubTrack(
    id: nat, lastSeq: U32, recv: nat, lost: nat, recvTick: nat, lostTick: nat,
    totalBytes: nat, lastSize: U32, lat: Buffers)

  datatype Pubs = Pubs(order: seq<Gid>, tracks: map<Gid, PubTrack>)

  const NO_PUBS := Pubs([], map[])

  ghost predicate ValidPubs(p: Pubs) {
    && Distinct(p.order)
    && (forall g :: g in p.order <==> g in p.tracks)
    && forall i :: 0 <= i < |p.order| ==> p.order[i] in p.tracks && p.tracks[p.order[i]].id == i + 1
  }

  // ---------------------------------------------------------------- one message

  /** The comparison and the difference are 64-bit; storing the new lastSeq truncates it to 32 bits. */
  function ApplySeqGap(t: PubTrack, seqNo: U64): PubTrack {
    if seqNo <= t.lastSeq then t
    else
      var diff := seqNo - t.lastSeq - 1;
      t.(lost := t.lost + diff, lostTick := t.lostTick + diff, lastSeq := Low32(seqNo))
  }

  function NewTrack(id: nat, seqNo: U64, size: nat): PubTrack {
    PubTrack(id, Low32(seqNo), 1, 0, 1, 0, size, Low32(size), NO_SAMPLES)
  }

  function CountMessage(t: PubTrack, seqNo: U64, size: nat): PubTrack {
    ApplySeqGap(t.(recv := t.recv + 1, recvTick := t.recvTick + 1, lastSize := Low32(size),
                   totalBytes := t.totalBytes + size), seqNo)
  }

  function AddLatency(t: PubTrack, latency: bool, oneway: int): PubTrack {
    if latency && oneway >= 0 then t.(lat := AddSample(t.lat, DEFAULT_CAPS, oneway)) else t
  }

  function OnMessage(p: Pubs, latency: bool, g: Gid, seqNo: U64, size: nat, oneway: int): Pubs {
    if g !in p.tracks then
      Pubs(p.order + [g], p.tracks[g := AddLatency(NewTrack(|p.order| + 1, seqNo, size), latency, oneway)])
    else
      p.(tracks := p.tracks[g := AddLatency(CountMessage(p.tracks[g], seqNo, size), latency, oneway)])
  }

  lemma OnMessageValid(p: Pubs, latency: bool, g: Gid, seqNo: U64, size: nat, oneway: int)
    requires ValidPubs(p)
    ensures ValidPubs(OnMessage(p, latency, g, seqNo, size, oneway))
    ensures |OnMessage(p, latency, g, seqNo, size, oneway).order| == |p.order| + if g in p.tracks then 0 else 1
  {
  }

  // ---------------------------------------------------------------- snapshots

  datatype SnapshotKind = TickReset | Totals

  datatype PubRow = PubRow(
    id: nat, gid: Gid, recvTick: nat, lostTick: nat, recvTotal: nat, lostTotal: nat,
    totalBytes: nat, lastSize: U32, latWindow: Summary, hasLatWindow: bool, latTotal: Summary, hasLatTotal: bool)

  /** A tick passes over a publisher that was quiet. */
  predicate Reported(t: PubTrack, kind: SnapshotKind) {
    kind.Totals? || t.recvTick != 0 || t.lostTick != 0
  }

  ghost function RowOf(g: Gid, t: PubTrack, latency: bool, kind: SnapshotKind): PubRow {
    match kind
    case TickReset =>
      PubRow(t.id, g, t.recvTick, t.lostTick, t.recv, t.lost, t.totalBytes, t.lastSize,
             if latency then Summarize(t.lat.window) else EMPTY_SUMMARY, latency && |t.lat.window| > 0,
             EMPTY_SUMMARY, false)
    case Totals =>
      PubRow(t.id, g, 0, 0, t.recv, t.lost, t.totalBytes, t.lastSize, EMPTY_SUMMARY, false,
             if latency then Summarize(t.lat.total) else EMPTY_SUMMARY, latency && |t.lat.total| > 0)
  }

  function TrackAfter(t: PubTrack, latency: bool, kind: SnapshotKind): PubTrack {
    if kind.Totals? || !Reported(t, kind) then t
    else t.(recvTick := 0, lostTick := 0, lat := if latency then t.lat.(window := []) else t.lat)
  }

  ghost function RowMap(tracks: map<Gid, PubTrack>, latency: bool, kind: SnapshotKind): map<Gid, PubRow> {
    map g | g in tracks && Reported(tracks[g], kind) :: RowOf(g, tracks[g], latency, kind)
  }

  function TracksAfter(tracks: map<Gid, PubTrack>, latency: bool, kind: SnapshotKind): map<Gid, PubTrack> {
    map g | g in tracks :: TrackAfter(tracks[g], latency, kind)
  }

  ghost function SnapshotRows(p: Pubs, latency: bool, kind: SnapshotKind): seq<PubRow> {
    Rows(p.order, RowMap(p.tracks, latency, kind))
  }

  function AfterSnapshot(p: Pubs, latency: bool, kind: SnapshotKind): Pubs {
    p.(tracks := TracksAfter(p.tracks, latency, kind))
  }

  function RowId(r: PubRow): int { r.id }

  class PubRegistry {
    const latency: bool
    var nextId: nat
    var pubs: map<Gid, PubTrack>
    ghost var order: seq<Gid>

    ghost function Value(): Pubs
      reads this
    {
      Pubs(order, pubs)
    }

    ghost predicate Valid()
      reads this
    {
      ValidPubs(Value()) && nextId == |order| + 1
    }

    constructor (latency: bool)
      ensures Valid() && Value() == NO_PUBS && this.latency == latency
    {
      this.latency := latency;
      nextId, pubs, order := 1, map[], [];
    }

    method Receive(g: Gid, seqNo: U64, size: nat, oneway: int)
      requires Valid()
      modifies this
      ensures Valid()
      ensures Value() == OnMessage(old(Value()), latency, g, seqNo, size, oneway)
    {
      ghost var before := Value();
      OnMessageValid(before, latency, g, seqNo, size, oneway);
      var track: PubTrack;
      if g !in pubs {
        track := PubTrack(nextId, Low32(seqNo), 1, 0, 1, 0, size, Low32(size), NO_SAMPLES);
        nextId := nextId + 1;
        order := order + [g];
      } else {
        track := pubs[g];
        track := track.(recv := track.recv + 1, recvTick := track.recvTick + 1,
                        lastSize := Low32(size), totalBytes := track.totalBytes + size);
        track := ApplySeqGap(track, seqNo);
      }
      if latency && oneway >= 0 {
        track := track.(lat := AddSample(track.lat, DEFAULT_CAPS, oneway));
      }
      pubs := pubs[g := track];
      assert Value() == OnMessage(before, latency, g, seqNo, size, oneway);
    }

    method Snapshot(kind: SnapshotKind) returns (out: seq<PubRow>)
      requires Valid()
      modifies this
      ensures Valid()
      ensures out == SnapshotRows(old(Value()), latency, kind)
      ensures Value() == AfterSnapshot(old(Value()), latency, kind)
    {
      ghost var before := Value();
      out, pubs := TakeRows(pubs, latency, kind);
      SortedSnapshot(before, latency, kind, out);
      AfterSnapshotValid(before, latency, kind);
      out := SortBy(out, RowId);
      assert Value() == AfterSnapshot(before, latency, kind);
    }
  }

  lemma SortedSnapshot(p: Pubs, latency: bool, kind: SnapshotKind, out: seq<PubRow>)
    requires ValidPubs(p) && Collects(out, RowMap(p.tracks, latency, kind))
    ensures SortBy(out, RowId) == SnapshotRows(p, latency, kind)
  {
    SortedRows(p.order, RowMap(p.tracks, latency, kind), out, RowId);
  }

  lemma AfterSnapshotValid(p: Pubs, latency: bool, kind: SnapshotKind)
    requires ValidPubs(p)
    ensures ValidPubs(AfterSnapshot(p, latency, kind))
  {
  }

  /** The snapshot loop: visit the publishers in whatever order the map yields them. */
  method TakeRows(pubs: map<Gid, PubTrack>, latency: bool, kind: SnapshotKind)
    returns (out: seq<PubRow>, after: map<Gid, PubTrack>)
    ensures Collects(out, RowMap(pubs, latency, kind))
    ensures after == TracksAfter(pubs, latency, kind)
  {
    out, after := [], pubs;
    ghost var rows: map<Gid, PubRow> := map[];
    var rest := pubs.Keys;
    CollectNone<PubRow>();
    while rest != {}
      invariant Halfway(pubs, latency, kind, rest, rows, after)
      invariant Collects(out, rows)
    {
      var g :| g in rest;
      var p := after[g];
      if kind.Totals? || p.recvTick != 0 || p.lostTick != 0 {
        var snap, t := TakeRow(g, p, latency, kind);
        CollectOne(out, rows, g, snap);
        out := out + [snap];
        rows := rows[g := snap];
        after := after[g := t];
      }
      rest := rest - {g};
    }
    Finished(pubs, latency, kind, rows, after);
  }

  /** The state of the snapshot loop with the publishers in `rest` still to visit. */
  ghost predicate Halfway(pubs: map<Gid, PubTrack>, latency: bool, kind: SnapshotKind, rest: set<Gid>,
                          rows: map<Gid, PubRow>, after: map<Gid, PubTrack>) {
    && rest <= pubs.Keys == after.Keys
    && (forall g :: g in rows <==> g in pubs && g !in rest && Reported(pubs[g], kind))
    && (forall g :: g in rows ==> rows[g] == RowOf(g, pubs[g], latency, kind))
    && (forall g :: g in after ==> after[g] == if g in rest then pubs[g] else TrackAfter(pubs[g], latency, kind))
  }

  lemma FinishedRows(pubs: map<Gid, PubTrack>, latency: bool, kind: SnapshotKind, rows: map<Gid, PubRow>)
    requires forall g :: g in rows <==> g in pubs && Reported(pubs[g], kind)
    requires forall g :: g in rows ==> rows[g] == RowOf(g, pubs[g], latency, kind)
    ensures rows == RowMap(pubs, latency, kind)
  {
    assert rows.Keys == RowMap(pubs, latency, kind).Keys;
  }

  lemma FinishedTracks(pubs: map<Gid, PubTrack>, latency: bool, kind: SnapshotKind, after: map<Gid, PubTrack>)
    requires after.Keys == pubs.Keys
    requires forall g :: g in after ==> after[g] == TrackAfter(pubs[g], latency, kind)
    ensures after == TracksAfter(pubs, latency, kind)
  {
  }

  lemma Finished(pubs: map<Gid, PubTrack>, latency: bool, kind: SnapshotKind,
                 rows: map<Gid, PubRow>, after: map<Gid, PubTrack>)
    requires Halfway(pubs, latency, kind, {}, rows, after)
    ensures rows == RowMap(pubs, latency, kind)
    ensures after == TracksAfter(pubs, latency, kind)
  {
    FinishedRows(pubs, latency, kind, rows);
    FinishedTracks(pubs, latency, kind, after);
  }

  method TakeRow(g: Gid, t: PubTrack, latency: bool, kind: SnapshotKind) returns (row: PubRow, t': PubTrack)
    requires Reported(t, kind)
    ensures row == RowOf(g, t, latency, kind) && t' == TrackAfter(t, latency, kind)
  {
    t' := t;
    var s := EMPTY_SUMMARY;
    if kind.TickReset? {
      t' := t'.(recvTick := 0, lostTick := 0);
      if latency {
        s := ComputeSummary(t.lat.window);
        t' := t'.(lat := t.lat.(window := []));
      }
      row := PubRow(t.id, g, t.recvTick, t.lostTick, t.recv, t.lost, t.totalBytes, t.lastSize,
                    s, s.count > 0, EMPTY_SUMMARY, false);
    } else {
      if latency {
        s := ComputeSummary(t.lat.total);
      }
      row := PubRow(t.id, g, 0, 0, t.recv, t.lost, t.totalBytes, t.lastSize,
                    EMPTY_SUMMARY, false, s, s.count > 0);
    }
  }
}
