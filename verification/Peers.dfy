/** The peer tracker (mode_utils.cpp): the set of known endpoints, reconciled against snapshots of the
    graph, with an event printed for every endpoint that appears or disappears. */
module Peers {
  import opened Wire

  datatype Event = Matched(g: Gid) | Gone(g: Gid)

  /** The events that concern one endpoint, in order. */
  function Of(log: seq<Event>, g: Gid): seq<Event> {
    if log == [] then []
    else Of(log[..|log| - 1], g) + if log[|log| - 1].g == g then [log[|log| - 1]] else []
  }

  lemma {:induction false} OfAppend(a: seq<Event>, b: seq<Event>, g: Gid)
    ensures Of(a + b, g) == Of(a, g) + Of(b, g)
  {
    if b == [] {
      assert a + b == a;
    } else {
      var n := |b| - 1;
      OfAppend(a, b[..n], g);
      assert (a + b)[..|a + b| - 1] == a + b[..n];
    }
  }

  function Elements(xs: seq<Gid>): set<Gid> {
    set g | g in xs
  }

  /** What one reconciliation prints for an endpoint. */
  function Reconciled(g: Gid, known: set<Gid>, current: set<Gid>): seq<Event> {
    if g in current && g !in known then [Matched(g)]
    else if g in known && g !in current then [Gone(g)]
    else []
  }

  /** The effect of reconciling `known` with `current`: the printed events are, in some order, one match
      per new endpoint followed by one departure per vanished endpoint, and nothing else. */
  ghost predicate Prints(printed: seq<Event>, known: set<Gid>, current: set<Gid>) {
    && (forall g :: Of(printed, g) == Reconciled(g, known, current))
    && exists n :: 0 <= n <= |printed| && MatchesThenDepartures(printed, n)
  }

  predicate MatchesThenDepartures(printed: seq<Event>, n: nat)
    requires n <= |printed|
  {
    (forall i :: 0 <= i < n ==> printed[i].Matched?) && (forall i :: n <= i < |printed| ==> printed[i].Gone?)
  }

  class PeerTracker {
    var known: set<Gid>
    /** Everything this tracker has printed. */
    var log: seq<Event>

    constructor ()
      ensures known == {} && log == []
    {
      known, log := {}, [];
    }

    /** sync_from_graph, from the point where the graph query has returned `endpoints`. */
    method Sync(endpoints: seq<Gid>)
      modifies this
      ensures known == Elements(endpoints)
      ensures |old(log)| <= |log| && log[..|old(log)|] == old(log)
      ensures Prints(log[|old(log)|..], old(known), Elements(endpoints))
    {
      var current := Collect(endpoints);
      var matches := MatchNew(current);
      var departures := DropGone(current);
      SyncEffect(old(known), current, old(log), matches, departures);
    }

    /** The first loop: every endpoint of the snapshot that is not known yet is added and announced. */
    method MatchNew(current: set<Gid>) returns (ghost printed: seq<Event>)
      modifies this
      ensures known == old(known) + current && log == old(log) + printed
      ensures MatchesOf(printed, old(known), current)
    {
      printed := [];
      var rest := current;
      MatchingStarts(known, current);
      while rest != {}
        invariant Matching(printed, old(known), current, rest, known)
        invariant log == old(log) + printed
      {
        var g :| g in rest;
        MatchOne(printed, old(known), current, rest, known, g);
        if g !in known {
          known := known + {g};
          Associate(old(log), printed, Matched(g));
          log := log + [Matched(g)];
          printed := printed + [Matched(g)];
        }
        rest := rest - {g};
      }
      MatchingEnds(printed, old(known), current, known);
    }

    /** The second loop: every known endpoint missing from the snapshot is announced and erased. */
    method DropGone(current: set<Gid>) returns (ghost printed: seq<Event>)
      modifies this
      ensures known == old(known) * current && log == old(log) + printed
      ensures DeparturesOf(printed, old(known), current)
    {
      printed := [];
      var rest := known;
      DroppingStarts(known, current);
      while rest != {}
        invariant Dropping(printed, old(known), current, rest, known)
        invariant log == old(log) + printed
      {
        var g :| g in rest;
        DropOne(printed, old(known), current, rest, known, g);
        if g !in current {
          Associate(old(log), printed, Gone(g));
          log := log + [Gone(g)];
          known := known - {g};
          printed := printed + [Gone(g)];
        }
        rest := rest - {g};
      }
      DroppingEnds(printed, old(known), current, known);
    }

    method FlushGone()
      modifies this
      ensures known == {}
      ensures |old(log)| <= |log| && log[..|old(log)|] == old(log)
      ensures Prints(log[|old(log)|..], old(known), {})
    {
      var printed := DropGone({});
      assert MatchesOf([], old(known), {});
      Combine(old(known), {}, [], printed);
      assert [] + printed == printed;
      assert log == old(log) + printed;
      known := {};
    }
  }

  /** The set of keys built from the query's answer. */
  method Collect(endpoints: seq<Gid>) returns (current: set<Gid>)
    ensures current == Elements(endpoints)
  {
    current := {};
    for i := 0 to |endpoints|
      invariant current == Elements(endpoints[..i])
    {
      assert endpoints[..i + 1] == endpoints[..i] + [endpoints[i]];
      current := current + {endpoints[i]};
    }
    assert endpoints[..|endpoints|] == endpoints;
  }

  /** One match for each endpoint of `current` that is not in `known`, and nothing else. */
  ghost predicate MatchesOf(printed: seq<Event>, known: set<Gid>, current: set<Gid>) {
    && (forall i :: 0 <= i < |printed| ==> printed[i].Matched?)
    && forall g :: Of(printed, g) == if g in current && g !in known then [Matched(g)] else []
  }

  /** One departure for each endpoint of `known` that is not in `current`, and nothing else. */
  ghost predicate DeparturesOf(printed: seq<Event>, known: set<Gid>, current: set<Gid>) {
    && (forall i :: 0 <= i < |printed| ==> printed[i].Gone?)
    && forall g :: Of(printed, g) == if g in known && g !in current then [Gone(g)] else []
  }

  /** The state of the first loop with the endpoints in `rest` still to visit. */
  ghost predicate Matching(printed: seq<Event>, known0: set<Gid>, current: set<Gid>, rest: set<Gid>, known: set<Gid>) {
    && rest <= current
    && (forall g :: g in known <==> g in known0 || (g in current && g !in rest))
    && MatchesOf(printed, known0, current - rest)
  }

  lemma MatchingStarts(known0: set<Gid>, current: set<Gid>)
    ensures Matching([], known0, current, current, known0)
  {
  }

  lemma MatchOne(printed: seq<Event>, known0: set<Gid>, current: set<Gid>, rest: set<Gid>, known: set<Gid>, g: Gid)
    requires Matching(printed, known0, current, rest, known) && g in rest
    ensures g in known ==> Matching(printed, known0, current, rest - {g}, known)
    ensures g !in known ==> Matching(printed + [Matched(g)], known0, current, rest - {g}, known + {g})
  {
    AppendOne(printed, Matched(g));
  }

  lemma MatchingEnds(printed: seq<Event>, known0: set<Gid>, current: set<Gid>, known: set<Gid>)
    requires Matching(printed, known0, current, {}, known)
    ensures known == known0 + current && MatchesOf(printed, known0, current)
  {
    assert current - {} == current;
  }

  /** The state of the second loop with the endpoints in `rest` still to visit. */
  ghost predicate Dropping(printed: seq<Event>, known0: set<Gid>, current: set<Gid>, rest: set<Gid>, known: set<Gid>) {
    && rest <= known0
    && (forall g :: g in known <==> g in known0 && (g in rest || g in current))
    && DeparturesOf(printed, known0 - rest, current)
  }

  lemma DroppingStarts(known0: set<Gid>, current: set<Gid>)
    ensures Dropping([], known0, current, known0, known0)
  {
  }

  lemma DepartMore(printed: seq<Event>, gone: set<Gid>, current: set<Gid>, g: Gid)
    requires DeparturesOf(printed, gone, current) && g !in gone
    ensures g in current ==> DeparturesOf(printed, gone + {g}, current)
    ensures g !in current ==> DeparturesOf(printed + [Gone(g)], gone + {g}, current)
  {
    AppendOne(printed, Gone(g));
  }

  lemma DropOne(printed: seq<Event>, known0: set<Gid>, current: set<Gid>, rest: set<Gid>, known: set<Gid>, g: Gid)
    requires Dropping(printed, known0, current, rest, known) && g in rest
    ensures g in current ==> Dropping(printed, known0, current, rest - {g}, known)
    ensures g !in current ==> Dropping(printed + [Gone(g)], known0, current, rest - {g}, known - {g})
  {
    assert known0 - (rest - {g}) == (known0 - rest) + {g};
    DepartMore(printed, known0 - rest, current, g);
  }

  lemma DroppingEnds(printed: seq<Event>, known0: set<Gid>, current: set<Gid>, known: set<Gid>)
    requires Dropping(printed, known0, current, {}, known)
    ensures known == known0 * current && DeparturesOf(printed, known0, current)
  {
    assert known0 - {} == known0;
  }

  /** The endpoints added by the first loop are all current, so the second loop drops old ones only. */
  lemma SyncEffect(known0: set<Gid>, current: set<Gid>, before: seq<Event>, matches: seq<Event>, departures: seq<Event>)
    requires MatchesOf(matches, known0, current) && DeparturesOf(departures, known0 + current, current)
    ensures (known0 + current) * current == current
    ensures var after := before + matches + departures;
      after[..|before|] == before && Prints(after[|before|..], known0, current)
  {
    var after := before + matches + departures;
    Combine(known0, current, matches, departures);
    assert after == before + (matches + departures);
    assert after[|before|..] == matches + departures;
  }

  lemma Associate(a: seq<Event>, b: seq<Event>, e: Event)
    ensures a + b + [e] == a + (b + [e])
  {
  }

  lemma AppendOne(printed: seq<Event>, e: Event)
    ensures forall g :: Of(printed + [e], g) == Of(printed, g) + if e.g == g then [e] else []
  {
    assert (printed + [e])[..|printed|] == printed;
  }

  lemma Combine(known: set<Gid>, current: set<Gid>, matches: seq<Event>, departures: seq<Event>)
    requires MatchesOf(matches, known, current)
    requires DeparturesOf(departures, known, current) || DeparturesOf(departures, known + current, current)
    ensures Prints(matches + departures, known, current)
  {
    forall g ensures Of(matches + departures, g) == Reconciled(g, known, current) {
      OfAppend(matches, departures, g);
    }
    assert MatchesThenDepartures(matches + departures, |matches|);
  }

  // ---------------------------------------------------------------- every interleaving of queries and syncs

  /** The tracker, the snapshots that threads have queried, outside the lock, but not applied yet, and the
      threads that may still synchronise: those of the executor, and main while it is in its loop. */
  datatype Tracker = Tracker(known: set<Gid>, log: seq<Event>, queried: map<nat, seq<Gid>>, running: set<nat>)

  /** Join means that the thread's function has returned; for main, that it has left its loop. */
  datatype Action = Query(thread: nat, endpoints: seq<Gid>) | Apply(thread: nat) | Join(thread: nat) | Flush

  function Fresh(threads: set<nat>): Tracker {
    Tracker({}, [], map[], threads)
  }

  ghost predicate Next(s: Tracker, a: Action, s': Tracker) {
    match a
    case Query(thread, endpoints) =>
      thread in s.running && thread !in s.queried && s' == s.(queried := s.queried[thread := endpoints])
    case Apply(thread) =>
      && thread in s.queried && Reconciles(s, Elements(s.queried[thread]), s')
      && s'.queried == s.queried - {thread} && s'.running == s.running
    case Join(thread) =>
      thread in s.running && thread !in s.queried && s' == s.(running := s.running - {thread})
    case Flush => Reconciles(s, {}, s') && s'.queried == s.queried && s'.running == s.running
  }

  ghost predicate Reconciles(s: Tracker, current: set<Gid>, s': Tracker) {
    && s'.known == current
    && |s.log| <= |s'.log| && s'.log[..|s.log|] == s.log
    && Prints(s'.log[|s.log|..], s.known, current)
  }

  ghost predicate IsRun(threads: set<nat>, trace: seq<Tracker>, actions: seq<Action>) {
    && |trace| == |actions| + 1
    && trace[0] == Fresh(threads)
    && forall i :: 0 <= i < |actions| ==> Next(trace[i], actions[i], trace[i + 1])
  }

  /** matched, gone, matched, gone, ... */
  predicate Alternating(es: seq<Event>) {
    forall i :: 0 <= i < |es| ==> (es[i].Matched? <==> i % 2 == 0)
  }

  function Count(es: seq<Event>, matched: bool): nat {
    if es == [] then 0
    else Count(es[..|es| - 1], matched) + if es[|es| - 1].Matched? == matched then 1 else 0
  }

  /** An endpoint's events alternate, and it is known exactly when its last event is a match. */
  ghost predicate Consistent(s: Tracker, g: Gid) {
    Alternating(Of(s.log, g)) && (g in s.known <==> |Of(s.log, g)| % 2 == 1)
  }

  lemma ReconcileStep(s: Tracker, current: set<Gid>, s': Tracker, g: Gid)
    requires Consistent(s, g) && Reconciles(s, current, s')
    ensures Consistent(s', g)
  {
    var printed := s'.log[|s.log|..];
    assert s'.log == s.log + printed;
    OfAppend(s.log, printed, g);
    Alternates(Of(s.log, g), g, s.known, current);
  }

  lemma Alternates(es: seq<Event>, g: Gid, known: set<Gid>, current: set<Gid>)
    requires Alternating(es) && (g in known <==> |es| % 2 == 1)
    ensures var es' := es + Reconciled(g, known, current);
      Alternating(es') && (g in current <==> |es'| % 2 == 1)
  {
  }

  lemma {:induction false} RunConsistent(threads: set<nat>, trace: seq<Tracker>, actions: seq<Action>, i: nat, g: Gid)
    requires IsRun(threads, trace, actions) && i < |trace|
    ensures Consistent(trace[i], g)
  {
    if i > 0 {
      RunConsistent(threads, trace, actions, i - 1, g);
      assert Next(trace[i - 1], actions[i - 1], trace[i]);
      match actions[i - 1]
      case Query(_, _) =>
      case Join(_) =>
      case Apply(thread) =>
        ReconcileStep(trace[i - 1], Elements(trace[i - 1].queried[thread]), trace[i], g);
      case Flush =>
        ReconcileStep(trace[i - 1], {}, trace[i], g);
    }
  }

  lemma {:induction false} AlternatingCounts(es: seq<Event>)
    requires Alternating(es)
    ensures Count(es, true) - Count(es, false) == |es| % 2
  {
    if es != [] {
      var n := |es| - 1;
      AlternatingCounts(es[..n]);
      assert es[n].Matched? <==> n % 2 == 0;
    }
  }

  /** However queries and syncs interleave, and however stale the snapshots are: every endpoint's events
      strictly alternate starting with a match, its matches exceed its departures by one exactly while it
      is known, and a log is balanced for every endpoint if and only if nothing is known. */
  lemma EventsAlternate(threads: set<nat>, trace: seq<Tracker>, actions: seq<Action>, i: nat)
    requires IsRun(threads, trace, actions) && i < |trace|
    ensures var s := trace[i];
      && (forall g :: Alternating(Of(s.log, g)))
      && (forall g :: Count(Of(s.log, g), true) == Count(Of(s.log, g), false) + if g in s.known then 1 else 0)
      && ((forall g :: Count(Of(s.log, g), true) == Count(Of(s.log, g), false)) <==> s.known == {})
  {
    forall g
      ensures Alternating(Of(trace[i].log, g))
      ensures Count(Of(trace[i].log, g), true)
           == Count(Of(trace[i].log, g), false) + if g in trace[i].known then 1 else 0
    {
      RunConsistent(threads, trace, actions, i, g);
      AlternatingCounts(Of(trace[i].log, g));
    }
    if g :| g in trace[i].known {
      assert Count(Of(trace[i].log, g), true) != Count(Of(trace[i].log, g), false);
    }
  }

  // ---------------------------------------------------------------- shutdown

  /** main's order at shutdown: it leaves its loop and joins the executor's thread before it flushes. */
  ghost predicate InShutdownOrder(trace: seq<Tracker>, actions: seq<Action>)
    requires |trace| == |actions| + 1
  {
    forall i :: 0 <= i < |actions| && actions[i].Flush? ==> trace[i].running == {}
  }

  lemma {:induction false} PendingRuns(threads: set<nat>, trace: seq<Tracker>, actions: seq<Action>, i: nat)
    requires IsRun(threads, trace, actions) && i < |trace|
    ensures forall thread :: thread in trace[i].queried ==> thread in trace[i].running
  {
    if i > 0 {
      PendingRuns(threads, trace, actions, i - 1);
      assert Next(trace[i - 1], actions[i - 1], trace[i]);
    }
  }

  lemma {:induction false} AfterFlush(threads: set<nat>, trace: seq<Tracker>, actions: seq<Action>, j: nat, i: nat)
    requires IsRun(threads, trace, actions) && InShutdownOrder(trace, actions)
    requires j < i < |trace| && actions[j].Flush?
    ensures trace[i].running == {} && trace[i].known == {}
  {
    assert Next(trace[i - 1], actions[i - 1], trace[i]);
    if j < i - 1 {
      AfterFlush(threads, trace, actions, j, i - 1);
      PendingRuns(threads, trace, actions, i - 1);
    }
  }

  /** The shutdown order does its work: from the first flush on nothing is known and every endpoint's matches
      and departures balance, whatever the threads were doing before they were joined. */
  lemma FlushBalances(threads: set<nat>, trace: seq<Tracker>, actions: seq<Action>, j: nat, i: nat)
    requires IsRun(threads, trace, actions) && InShutdownOrder(trace, actions)
    requires j < i < |trace| && actions[j].Flush?
    ensures trace[i].known == {}
    ensures forall g :: Count(Of(trace[i].log, g), true) == Count(Of(trace[i].log, g), false)
  {
    AfterFlush(threads, trace, actions, j, i);
    EventsAlternate(threads, trace, actions, i);
  }

  lemma PrintsNothing(known: set<Gid>)
    requires known == {}
    ensures Prints([], known, {})
  {
    assert MatchesThenDepartures([], 0);
  }

  lemma PrintsMatch(g: Gid, current: set<Gid>)
    requires current == {g}
    ensures Prints([Matched(g)], {}, current)
  {
    AppendOne([], Matched(g));
    assert [] + [Matched(g)] == [Matched(g)];
    assert MatchesThenDepartures([Matched(g)], 1);
  }

  lemma StaleApply(s: Tracker, thread: nat, g: Gid) returns (s': Tracker)
    requires s.known == {} && s.log == [] && s.queried == map[thread := [g]]
    ensures Next(s, Apply(thread), s') && s'.known == {g}
  {
    s' := Tracker({g}, [Matched(g)], map[], s.running);
    assert Elements([g]) == {g};
    PrintsMatch(g, {g});
    assert s'.log[0..] == [Matched(g)];
  }

  /** The order matters: a thread that is not joined can apply a stale snapshot after the flush, and then an
      endpoint stays matched. */
  lemma FlushTooEarly(thread: nat, g: Gid) returns (trace: seq<Tracker>, actions: seq<Action>)
    ensures IsRun({thread}, trace, actions) && !InShutdownOrder(trace, actions)
    ensures |actions| == 3 && actions[1].Flush?
    ensures Count(Of(trace[3].log, g), true) == Count(Of(trace[3].log, g), false) + 1
  {
    var s0 := Fresh({thread});
    var s1 := s0.(queried := map[thread := [g]]);
    PrintsNothing(s1.known);
    assert s1.log[0..] == [];
    var s3 := StaleApply(s1, thread, g);
    actions, trace := [Query(thread, [g]), Flush, Apply(thread)], [s0, s1, s1, s3];
    assert trace[1].running == {thread} && actions[1].Flush?;
    EventsAlternate({thread}, trace, actions, 3);
  }
}
