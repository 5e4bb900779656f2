/** What the parser complains about: each error names the first thing that is wrong with the line. */
module Complaints {
  import opened Args
  import opened Config
  import opened Grammar

  // ---------------------------------------------------------------- what can be wrong

  /** An option that is not known, lacks its value, or has one that does not fit. */
  predicate OptionFault(rest: seq<Token>, e: Complaint) {
    && rest != [] && rest[0].dash
    && match e
       case UnknownOption(text) => rest[0].opt.UnknownOpt? && text == rest[0].text
       case MissingValue(text) => IsValued(rest[0].opt) && |rest| == 1 && text == rest[0].text
       case InvalidValue(text, value) =>
         && IsValued(rest[0].opt) && |rest| > 1 && !ValidValue(rest[0].opt, rest[1])
         && text == rest[0].text && value == rest[1].text
       case _ => false
  }

  /** Whether a word takes a value in a mode, and whether a token is one. */
  predicate TakesValue(mode: ModeKey, w: Word) {
    match mode
    case PubKey => !w.OtherWord?
    case PingKey => w.SizeWord?
    case _ => false
  }

  predicate FitsWord(w: Word, v: Token) {
    if w.SizeWord? then v.size.Some? else v.count.Some?
  }

  /** Whether a token is a sub-argument on its own. */
  predicate StandsAlone(mode: ModeKey, t: Token) {
    match mode
    case PubKey => t.frequency.Some?
    case PingKey => t.trigger.Some? || t.frequency.Some?
    case _ => t.trigger.Some?
  }

  predicate TakesArguments(mode: ModeKey) {
    mode.PubKey? || mode.SubKey? || mode.PingKey? || mode.PongKey?
  }

  function KindOf(mode: ModeKey): ModeKind {
    match mode
    case PubKey => KPub
    case SubKey => KSub
    case PingKey => KPing
    case _ => KPong
  }

  /** A sub-argument that lacks its value, has one that does not fit, or is not known to its mode. */
  predicate ArgumentFault(mode: ModeKey, rest: seq<Token>, e: Complaint) {
    && TakesArguments(mode) && rest != [] && !rest[0].Boundary()
    && match e
       case MissingValue(text) => TakesValue(mode, rest[0].word) && |rest| == 1 && text == rest[0].text
       case InvalidValue(text, value) =>
         && TakesValue(mode, rest[0].word) && |rest| > 1 && !FitsWord(rest[0].word, rest[1])
         && text == rest[0].text && value == rest[1].text
       case UnknownArgument(kind, text) =>
         && !TakesValue(mode, rest[0].word) && !StandsAlone(mode, rest[0])
         && kind == KindOf(mode) && text == rest[0].text
       case _ => false
  }

  /** A mode with good sub-arguments followed by a bad one. */
  ghost predicate ModeFault(rest: seq<Token>, e: Complaint) {
    && rest != [] && !rest[0].dash
    && exists us, bad :: UnitsFit(rest[0].mode, us) && rest[1..] == UnitsTokens(us) + bad
                         && ArgumentFault(rest[0].mode, bad, e)
  }

  /** A word where an option or a mode must stand: at the start, after an option, or after sanity. */
  predicate StrayWord(gs: seq<Group>, rest: seq<Token>, e: Complaint) {
    && MayFollow(gs, rest) && rest != [] && !rest[0].dash && rest[0].mode.NoMode? && e == Unexpected(rest[0].text)
  }

  /** The groups gs are fine, and what follows them is wrong in the way e says. */
  ghost predicate Fault(gs: seq<Group>, rest: seq<Token>, e: Complaint) {
    || (rest == [] && ModesOf(gs) == [] && e == NoModeGiven)
    || OptionFault(rest, e) || ModeFault(rest, e) || StrayWord(gs, rest, e)
  }

  ghost predicate FaultyLine(gs: seq<Group>, rest: seq<Token>, toks: seq<string>, e: Complaint) {
    AllWellFormed(gs) && LexAll(toks) == Flatten(gs) + rest && Fault(gs, rest, e)
  }

  // ---------------------------------------------------------------- faults stop the parser

  lemma PubFault(rest: seq<Token>, pa: PubArgs, e: Complaint)
    requires rest != [] && !rest[0].Boundary()
    ensures ArgumentFault(PubKey, rest, e) <==> PubArg(rest, pa) == Bad(e)
  {
  }

  lemma PingFault(rest: seq<Token>, pa: PingArgs, e: Complaint)
    requires rest != [] && !rest[0].Boundary()
    ensures ArgumentFault(PingKey, rest, e) <==> PingArg(rest, pa) == Bad(e)
  {
  }

  lemma {:induction false} PubStops(us: seq<Unit>, bad: seq<Token>, pa: PubArgs, e: Complaint)
    requires ArgumentFault(PubKey, bad, e) && forall i :: 0 <= i < |us| ==> PubUnit(us[i])
    ensures TakePub(UnitsTokens(us) + bad, pa) == Bad(e)
  {
    if us == [] {
      assert UnitsTokens(us) + bad == bad;
      PubFault(bad, pa, e);
    } else {
      SplitUnits(us, bad);
      TakePubOne(us[0], UnitsTokens(us[1..]) + bad, pa);
      PubStops(us[1..], bad, PubMeaning([us[0]], pa), e);
    }
  }

  lemma {:induction false} PingStops(us: seq<Unit>, bad: seq<Token>, pa: PingArgs, e: Complaint)
    requires ArgumentFault(PingKey, bad, e) && forall i :: 0 <= i < |us| ==> PingUnit(us[i])
    ensures TakePing(UnitsTokens(us) + bad, pa) == Bad(e)
  {
    if us == [] {
      assert UnitsTokens(us) + bad == bad;
      PingFault(bad, pa, e);
    } else {
      SplitUnits(us, bad);
      TakePingOne(us[0], UnitsTokens(us[1..]) + bad, pa);
      PingStops(us[1..], bad, PingMeaning([us[0]], pa), e);
    }
  }

  lemma {:induction false} TriggerStops(us: seq<Unit>, bad: seq<Token>, tr: Trigger, mode: ModeKey, e: Complaint)
    requires (mode.SubKey? || mode.PongKey?) && ArgumentFault(mode, bad, e)
    requires forall i :: 0 <= i < |us| ==> TriggerUnit(us[i])
    ensures TakeTriggers(UnitsTokens(us) + bad, tr, KindOf(mode)) == Bad(e)
  {
    if us == [] {
      assert UnitsTokens(us) + bad == bad;
    } else {
      SplitUnits(us, bad);
      TakeTriggerOne(us[0], UnitsTokens(us[1..]) + bad, tr, KindOf(mode));
      TriggerStops(us[1..], bad, us[0].token.trigger.value, mode, e);
    }
  }

  lemma ModeFaultStops(rest: seq<Token>, cfg: Settings, e: Complaint)
    requires ModeFault(rest, e)
    ensures StepOf(rest, cfg) == Halt(Error, e) && rest[0].Boundary()
  {
    var us, bad :| UnitsFit(rest[0].mode, us) && rest[1..] == UnitsTokens(us) + bad
                   && ArgumentFault(rest[0].mode, bad, e);
    match rest[0].mode
    case PubKey => PubStops(us, bad, DEFAULT_PUB, e);
    case PingKey => PingStops(us, bad, DEFAULT_PING, e);
    case SubKey => TriggerStops(us, bad, Listener, SubKey, e);
    case PongKey => TriggerStops(us, bad, Listener, PongKey, e);
  }

  /** Without sub-arguments to look for, a group is taken whatever follows it. */
  lemma ClosedGroup(g: Group, tail: seq<Token>, cfg: Settings)
    requires WellFormed(g) && (!g.Mode? || g.key.mode.SanityKey?)
    ensures ParseRest(GroupTokens(g) + tail, cfg) == ParseRest(tail, Describes([g], cfg))
  {
    DescribesOne(g, cfg);
    GroupStart(g);
    assert (GroupTokens(g) + tail)[|GroupTokens(g)|..] == tail;
  }

  lemma {:induction false} FollowTo(gs: seq<Group>, tail: seq<Token>, cfg: Settings)
    requires AllWellFormed(gs) && MayFollow(gs, tail)
    ensures ParseRest(Flatten(gs) + tail, cfg) == ParseRest(tail, Describes(gs, cfg))
  {
    if Ends(tail) {
      FollowGroups(gs, tail, cfg);
    } else if gs == [] {
      assert Flatten(gs) + tail == tail;
      DescribesNone(cfg);
    } else {
      var g, more := gs[0], gs[1..];
      SplitGroups(gs, tail);
      if more == [] {
        assert gs == [g] && Flatten(more) + tail == tail;
        ClosedGroup(g, tail, cfg);
      } else {
        GroupsEnd(more, tail);
        ParseOneGroup(g, Flatten(more) + tail, cfg);
        FollowTo(more, tail, Describes([g], cfg));
        DescribesMore(g, more, cfg);
      }
    }
  }

  lemma GroupsEnd(gs: seq<Group>, tail: seq<Token>)
    requires AllWellFormed(gs) && gs != []
    ensures Ends(Flatten(gs) + tail)
  {
    GroupStart(gs[0]);
  }

  lemma FaultHalts(gs: seq<Group>, rest: seq<Token>, cfg: Settings, e: Complaint)
    requires Fault(gs, rest, e) && cfg.modes == ModesOf(gs)
    ensures ParseRest(rest, cfg) == ParseResult(Error, cfg, e) && MayFollow(gs, rest)
  {
    if ModeFault(rest, e) {
      ModeFaultStops(rest, cfg, e);
    }
  }

  lemma ModesDescribed(gs: seq<Group>)
    ensures Describes(gs, DEFAULT_SETTINGS).modes == ModesOf(gs)
  {
    assert [] + ModesOf(gs) == ModesOf(gs);
  }

  lemma FaultStops(gs: seq<Group>, rest: seq<Token>, toks: seq<string>, ts: seq<Token>, e: Complaint)
    requires AllWellFormed(gs) && Flatten(gs) + rest == ts == LexAll(toks) && Fault(gs, rest, e)
    ensures Parse(toks).status.Error? && Parse(toks).error == e
  {
    ModesDescribed(gs);
    FaultHalts(gs, rest, Describes(gs, DEFAULT_SETTINGS), e);
    FollowTo(gs, rest, DEFAULT_SETTINGS);
  }

  // ---------------------------------------------------------------- and nothing else does

  lemma {:induction false} FindPubFault(rest: seq<Token>, pa: PubArgs, e: Complaint)
    returns (us: seq<Unit>, bad: seq<Token>)
    requires TakePub(rest, pa) == Bad(e)
    ensures (forall i :: 0 <= i < |us| ==> PubUnit(us[i])) && rest == UnitsTokens(us) + bad
    ensures ArgumentFault(PubKey, bad, e)
  {
    PubFault(rest, pa, e);
    if PubArg(rest, pa).Bad? {
      us, bad := [], rest;
    } else {
      var k := PubArg(rest, pa).n;
      var u := FindPubUnit(rest, pa);
      var more;
      more, bad := FindPubFault(rest[k..], PubArg(rest, pa).args, e);
      us := [u] + more;
      OneMoreUnit(u, more, PubUnit);
      UnitBefore(u, more, bad, rest, k);
    }
  }

  lemma {:induction false} FindPingFault(rest: seq<Token>, pa: PingArgs, e: Complaint)
    returns (us: seq<Unit>, bad: seq<Token>)
    requires TakePing(rest, pa) == Bad(e)
    ensures (forall i :: 0 <= i < |us| ==> PingUnit(us[i])) && rest == UnitsTokens(us) + bad
    ensures ArgumentFault(PingKey, bad, e)
  {
    PingFault(rest, pa, e);
    if PingArg(rest, pa).Bad? {
      us, bad := [], rest;
    } else {
      var k := PingArg(rest, pa).n;
      var u := FindPingUnit(rest, pa);
      var more;
      more, bad := FindPingFault(rest[k..], PingArg(rest, pa).args, e);
      us := [u] + more;
      OneMoreUnit(u, more, PingUnit);
      UnitBefore(u, more, bad, rest, k);
    }
  }

  lemma {:induction false} FindTriggerFault(rest: seq<Token>, tr: Trigger, mode: ModeKey, e: Complaint)
    returns (us: seq<Unit>, bad: seq<Token>)
    requires (mode.SubKey? || mode.PongKey?) && TakeTriggers(rest, tr, KindOf(mode)) == Bad(e)
    ensures (forall i :: 0 <= i < |us| ==> TriggerUnit(us[i])) && rest == UnitsTokens(us) + bad
    ensures ArgumentFault(mode, bad, e)
  {
    if rest[0].trigger.None? {
      us, bad := [], rest;
    } else {
      var more;
      more, bad := FindTriggerFault(rest[1..], rest[0].trigger.value, mode, e);
      us := [Lone(rest[0])] + more;
      UnitBefore(Lone(rest[0]), more, bad, rest, 1);
    }
  }

  lemma UnitBefore(u: Unit, more: seq<Unit>, bad: seq<Token>, rest: seq<Token>, k: nat)
    requires k <= |rest| && UnitTokens(u) == rest[..k] && rest[k..] == UnitsTokens(more) + bad
    ensures rest == UnitsTokens([u] + more) + bad
  {
    SplitUnits([u] + more, bad);
    assert ([u] + more)[1..] == more;
    Rejoin(rest, k);
  }

  lemma FindModeFault(rest: seq<Token>, cfg: Settings, e: Complaint)
    requires rest != [] && !rest[0].dash && !rest[0].mode.NoMode? && ModeStep(rest, cfg) == Halt(Error, e)
    ensures ModeFault(rest, e)
  {
    var us, bad;
    match rest[0].mode {
      case PubKey => us, bad := FindPubFault(rest[1..], DEFAULT_PUB, e);
      case PingKey => us, bad := FindPingFault(rest[1..], DEFAULT_PING, e);
      case SubKey => us, bad := FindTriggerFault(rest[1..], Listener, SubKey, e);
      case PongKey => us, bad := FindTriggerFault(rest[1..], Listener, PongKey, e);
    }
    assert UnitsFit(rest[0].mode, us) && ArgumentFault(rest[0].mode, bad, e);
  }

  lemma HaltIsFault(gs: seq<Group>, rest: seq<Token>, cfg: Settings, e: Complaint)
    requires rest != [] && MayFollow(gs, rest) && StepOf(rest, cfg) == Halt(Error, e)
    ensures Fault(gs, rest, e)
  {
    if !rest[0].dash && !rest[0].mode.NoMode? {
      FindModeFault(rest, cfg, e);
    }
  }

  /** The parser rejects a line with a complaint exactly when the line is well formed up to a fault of that
      kind, and the complaint names the word at fault. */
  lemma ComplainsExactly(toks: seq<string>, e: Complaint)
    ensures Parse(toks).status.Error? && Parse(toks).error == e <==> exists gs, rest :: FaultyLine(gs, rest, toks, e)
  {
    if gs, rest :| FaultyLine(gs, rest, toks, e) {
      FaultStops(gs, rest, toks, LexAll(toks), e);
    }
    if Parse(toks).status.Error? && Parse(toks).error == e {
      var gs, rest := ParseEnds(toks);
      if rest != [] {
        HaltIsFault(gs, rest, Describes(gs, DEFAULT_SETTINGS), e);
      }
      assert FaultyLine(gs, rest, toks, e);
    }
  }
}
