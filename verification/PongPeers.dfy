/** The ping side's registry of pong peers (the registry part of ping_mode.cpp). */
module PongPeers {
  import opened Report
  import opened Sorting
  import opened Stats
  import opened Wire

  datatype PongTrack = PongTrack(id: nat, lastSeq: U64, lat: Buffers)

  /** The peers in the order in which they were first heard, and what is kept about each. */
  datatype Pongs = Pongs(order: seq<Gid>, tracks: map<Gid, PongTrack>)

  const NO_PONGS := Pongs([], map[])

  ghost predicate ValidPongs(p: Pongs) {
    && Distinct(p.order)
    && (forall g :: g in p.order <==> g in p.tracks)
    && forall i :: 0 <= i < |p.order| ==> p.order[i] in p.tracks && p.tracks[p.order[i]].id == i + 1
  }

  /** Whether a pong is accepted: the peer is new or the sequence number advances as a signed difference. */
  predicate Accepts(p: Pongs, key: Gid, seqNo: U64) {
    key in p.tracks ==> ToInt64(seqNo) - ToInt64(p.tracks[key].lastSeq) > 0
  }

  function OnPong(p: Pongs, key: Gid, seqNo: U64, rtt: int): Pongs {
    if key !in p.tracks then
      var track := PongTrack(|p.order| + 1, seqNo, AddSample(NO_SAMPLES, DEFAULT_CAPS, rtt));
      Pongs(p.order + [key], p.tracks[key := track])
    else if !Accepts(p, key, seqNo) then p
    else
      var t := p.tracks[key];
      p.(tracks := p.tracks[key := t.(lastSeq := seqNo, lat := AddSample(t.lat, DEFAULT_CAPS, rtt))])
  }

  lemma OnPongValid(p: Pongs, key: Gid, seqNo: U64, rtt: int)
    requires ValidPongs(p)
    ensures ValidPongs(OnPong(p, key, seqNo, rtt))
  {
  }

  datatype PongRow = PongRow(id: nat, gid: Gid, latWindow: Summary, hasLatWindow: bool,
                             latTotal: Summary, hasLatTotal: bool)

  datatype SnapshotKind = TickReset | Totals

  ghost function RowOf(g: Gid, t: PongTrack, kind: SnapshotKind): PongRow {
    match kind
    case TickReset => PongRow(t.id, g, Summarize(t.lat.window), |t.lat.window| > 0, EMPTY_SUMMARY, false)
    case Totals => PongRow(t.id, g, EMPTY_SUMMARY, false, Summarize(t.lat.total), |t.lat.total| > 0)
  }

  function TrackAfter(t: PongTrack, kind: SnapshotKind): PongTrack {
    if kind.TickReset? then t.(lat := t.lat.(window := [])) else t
  }

  /** A tick snapshot empties every latency window and touches nothing else; a totals snapshot changes nothing. */
  function AfterSnapshot(p: Pongs, kind: SnapshotKind): Pongs {
    p.(tracks := TracksAfter(p.tracks, kind))
  }

  function TracksAfter(tracks: map<Gid, PongTrack>, kind: SnapshotKind): map<Gid, PongTrack> {
    map g | g in tracks :: TrackAfter(tracks[g], kind)
  }

  /** The rows of a snapshot: one per peer, in first-heard order. */
  ghost function SnapshotRows(p: Pongs, kind: SnapshotKind): seq<PongRow> {
    Rows(p.order, RowMap(p.tracks, kind))
  }

  ghost function RowMap(tracks: map<Gid, PongTrack>, kind: SnapshotKind): map<Gid, PongRow> {
    map g | g in tracks :: RowOf(g, tracks[g], kind)
  }

  function RowId(r: PongRow): int { r.id }

  class PongRegistry {
    var nextId: nat
    var pongs: map<Gid, PongTrack>
    ghost var order: seq<Gid>

    ghost function Value(): Pongs
      reads this
    {
      Pongs(order, pongs)
    }

    ghost predicate Valid()
      reads this
    {
      ValidPongs(Value()) && nextId == |order| + 1
    }

    constructor ()
      ensures Valid() && Value() == NO_PONGS
    {
      nextId, pongs, order := 1, map[], [];
    }

    method Receive(key: Gid, seqNo: U64, rtt: int) returns (accepted: bool)
      requires Valid()
      modifies this
      ensures Valid()
      ensures accepted == Accepts(old(Value()), key, seqNo)
      ensures Value() == OnPong(old(Value()), key, seqNo, rtt)
    {
      if key !in pongs {
        pongs := pongs[key := PongTrack(nextId, seqNo, AddSample(NO_SAMPLES, DEFAULT_CAPS, rtt))];
        nextId := nextId + 1;
        order := order + [key];
        return true;
      }
      var track := pongs[key];
      var diff := ToInt64(seqNo) - ToInt64(track.lastSeq);
      if diff <= 0 {
        return false;
      }
      pongs := pongs[key := track.(lastSeq := seqNo, lat := AddSample(track.lat, DEFAULT_CAPS, rtt))];
      return true;
    }

    method Snapshot(kind: SnapshotKind) returns (out: seq<PongRow>)
      requires Valid()
      modifies this
      ensures Valid()
      ensures out == SnapshotRows(old(Value()), kind)
      ensures Value() == AfterSnapshot(old(Value()), kind)
    {
      ghost var before := Value();
      out, pongs := TakeRows(pongs, kind);
      SortedSnapshot(before, kind, out);
      AfterSnapshotValid(before, kind);
      out := SortBy(out, RowId);
      assert Value() == AfterSnapshot(before, kind);
    }
  }

  lemma SortedSnapshot(p: Pongs, kind: SnapshotKind, out: seq<PongRow>)
    requires ValidPongs(p) && Collects(out, RowMap(p.tracks, kind))
    ensures SortBy(out, RowId) == SnapshotRows(p, kind)
  {
    SortedRows(p.order, RowMap(p.tracks, kind), out, RowId);
  }

  lemma AfterSnapshotValid(p: Pongs, kind: SnapshotKind)
    requires ValidPongs(p)
    ensures ValidPongs(AfterSnapshot(p, kind))
  {
  }

  /** The snapshot loop: visit the peers in whatever order the map yields them. */
  method TakeRows(pongs: map<Gid, PongTrack>, kind: SnapshotKind)
    returns (out: seq<PongRow>, after: map<Gid, PongTrack>)
    ensures Collects(out, RowMap(pongs, kind))
    ensures after == TracksAfter(pongs, kind)
  {
    out, after := [], pongs;
    ghost var rows: map<Gid, PongRow> := map[];
    var rest := pongs.Keys;
    CollectNone<PongRow>();
    while rest != {}
      invariant Halfway(pongs, kind, rest, rows, after)
      invariant Collects(out, rows)
    {
      var g :| g in rest;
      var snap, t := TakeRow(g, after[g], kind);
      CollectOne(out, rows, g, snap);
      out := out + [snap];
      rows := rows[g := snap];
      after := after[g := t];
      rest := rest - {g};
    }
    Finished(pongs, kind, rows, after);
  }

  /** The state of the snapshot loop with the peers in `rest` still to visit. */
  ghost predicate Halfway(pongs: map<Gid, PongTrack>, kind: SnapshotKind, rest: set<Gid>,
                          rows: map<Gid, PongRow>, after: map<Gid, PongTrack>) {
    && rest <= pongs.Keys == after.Keys
    && rows.Keys == pongs.Keys - rest
    && (forall g :: g in rows ==> rows[g] == RowOf(g, pongs[g], kind) && after[g] == TrackAfter(pongs[g], kind))
    && (forall g :: g in rest ==> after[g] == pongs[g])
  }

  lemma Finished(pongs: map<Gid, PongTrack>, kind: SnapshotKind, rows: map<Gid, PongRow>, after: map<Gid, PongTrack>)
    requires Halfway(pongs, kind, {}, rows, after)
    ensures rows == RowMap(pongs, kind)
    ensures after == TracksAfter(pongs, kind)
  {
    assert rows.Keys == pongs.Keys;
  }

  /** One iteration of the snapshot loop: fill the row of a peer, drain its window on a tick. */
  method TakeRow(g: Gid, t: PongTrack, kind: SnapshotKind) returns (row: PongRow, t': PongTrack)
    ensures row == RowOf(g, t, kind) && t' == TrackAfter(t, kind)
  {
    t' := t;
    if kind.TickReset? {
      var s := ComputeSummary(t.lat.window);
      t' := t.(lat := t.lat.(window := []));
      row := PongRow(t.id, g, s, s.count > 0, EMPTY_SUMMARY, false);
    } else {
      var s := ComputeSummary(t.lat.total);
      row := PongRow(t.id, g, EMPTY_SUMMARY, false, s, s.count > 0);
    }
  }

  /** A snapshot lists every peer exactly once, numbered 1..n in the order of their first accepted pong. */
  lemma SnapshotNumbersPeers(p: Pongs, kind: SnapshotKind)
    requires ValidPongs(p)
    ensures |SnapshotRows(p, kind)| == |p.order|
    ensures forall i :: 0 <= i < |p.order| ==>
      SnapshotRows(p, kind)[i].id == i + 1 && SnapshotRows(p, kind)[i].gid == p.order[i]
  {
    FullRows(p.order, RowMap(p.tracks, kind));
  }

  /** The rows of a snapshot are those of the peers, each once, numbered in ascending order. */
  lemma RowsOfPeers(p: Pongs, kind: SnapshotKind)
    requires ValidPongs(p)
    ensures StrictlyAscending(SnapshotRows(p, kind), RowId)
    ensures forall r :: r in SnapshotRows(p, kind) ==> r.gid in p.tracks && r == RowOf(r.gid, p.tracks[r.gid], kind)
    ensures forall g :: g in p.tracks ==> RowOf(g, p.tracks[g], kind) in SnapshotRows(p, kind)
  {
    var rows := RowMap(p.tracks, kind);
    RowsAscending(p.order, rows, RowId);
    RowsHold(p.order, rows);
    forall g | g in p.tracks ensures RowOf(g, p.tracks[g], kind) in SnapshotRows(p, kind) {
      assert g in p.order && rows[g] in Rows(p.order, rows);
    }
  }
}
