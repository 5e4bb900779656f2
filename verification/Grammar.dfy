/** The command-line language, and the proof that the parser recognises exactly it.

    A command line is a sequence of groups: an option, an option with its value, or a mode keyword with
    its sub-arguments. What it means is read off the groups: the modes in their order, and for every
    setting the last group that sets it. */
module Grammar {
  import opened Args
  import opened Config
  import opened Numbers
  import opened Wire

  // ---------------------------------------------------------------- groups

  /** A sub-argument: a keyword with its value, or a word on its own. */
  datatype Unit = Pair(word: Token, value: Token) | Lone(token: Token)

  datatype Group = Flag(key: Token) | Valued(key: Token, value: Token) | Mode(key: Token, units: seq<Unit>)

  function UnitTokens(u: Unit): seq<Token> {
    match u
    case Pair(w, v) => [w, v]
    case Lone(t) => [t]
  }

  function UnitsTokens(us: seq<Unit>): seq<Token> {
    if us == [] then [] else UnitTokens(us[0]) + UnitsTokens(us[1..])
  }

  function GroupTokens(g: Group): seq<Token> {
    match g
    case Flag(t) => [t]
    case Valued(t, v) => [t, v]
    case Mode(t, us) => [t] + UnitsTokens(us)
  }

  function Flatten(gs: seq<Group>): seq<Token> {
    if gs == [] then [] else GroupTokens(gs[0]) + Flatten(gs[1..])
  }

  /** Which sub-arguments each mode admits. */
  predicate PubUnit(u: Unit) {
    match u
    case Pair(w, v) =>
      !w.Boundary() && ((w.word.SizeWord? && v.size.Some?) || (w.word.BurstWord? && v.count.Some?))
    case Lone(t) => !t.Boundary() && t.word.OtherWord? && t.frequency.Some?
  }

  predicate PingUnit(u: Unit) {
    match u
    case Pair(w, v) => !w.Boundary() && w.word.SizeWord? && v.size.Some?
    case Lone(t) => !t.Boundary() && !t.word.SizeWord? && (t.trigger.Some? || t.frequency.Some?)
  }

  predicate TriggerUnit(u: Unit) {
    u.Lone? && !u.token.Boundary() && u.token.trigger.Some?
  }

  predicate UnitsFit(mode: ModeKey, us: seq<Unit>) {
    match mode
    case PubKey => forall i :: 0 <= i < |us| ==> PubUnit(us[i])
    case PingKey => forall i :: 0 <= i < |us| ==> PingUnit(us[i])
    case SubKey => forall i :: 0 <= i < |us| ==> TriggerUnit(us[i])
    case PongKey => forall i :: 0 <= i < |us| ==> TriggerUnit(us[i])
    case SanityKey => us == []
    case _ => false
  }

  predicate WellFormed(g: Group) {
    match g
    case Flag(t) => t.dash && IsFlag(t.opt)
    case Valued(t, v) => t.dash && IsValued(t.opt) && ValidValue(t.opt, v)
    case Mode(t, us) => !t.dash && UnitsFit(t.mode, us)
  }

  predicate AllWellFormed(gs: seq<Group>) {
    forall i :: 0 <= i < |gs| ==> WellFormed(gs[i])
  }

  // ---------------------------------------------------------------- meaning

  /** The value of the last element that has one. */
  function Latest<A, T>(xs: seq<A>, pick: A -> Option<T>, default: T): T {
    if xs == [] then default
    else Latest(xs[1..], pick, match pick(xs[0]) case Some(v) => v case None => default)
  }

  lemma LatestOne<A, T>(x: A, pick: A -> Option<T>, default: T)
    ensures Latest([x], pick, default) == match pick(x) case Some(v) => v case None => default
  {
    assert [x][1..] == [];
  }

  lemma LatestCons<A, T>(x: A, xs: seq<A>, pick: A -> Option<T>, default: T)
    ensures Latest([x] + xs, pick, default) == Latest(xs, pick, Latest([x], pick, default))
  {
    LatestOne(x, pick, default);
    assert ([x] + xs)[1..] == xs;
  }

  function RateIn(u: Unit): Option<real> {
    if u.Lone? && u.token.trigger.None? then u.token.frequency else None
  }

  function SizeIn(u: Unit): Option<U32> {
    if u.Pair? && u.word.word.SizeWord? then u.value.size else None
  }

  function BurstIn(u: Unit): Option<U32> {
    if u.Pair? && u.word.word.BurstWord? then u.value.count else None
  }

  function TriggerIn(u: Unit): Option<Trigger> {
    if u.Lone? then u.token.trigger else None
  }

  function PubRateIn(u: Unit): Option<real> {
    if u.Lone? then u.token.frequency else None
  }

  function PubMeaning(us: seq<Unit>, pa: PubArgs): PubArgs {
    PubArgs(Latest(us, PubRateIn, pa.rateHz), Latest(us, SizeIn, pa.sizeBytes), Latest(us, BurstIn, pa.burst))
  }

  function PingMeaning(us: seq<Unit>, pa: PingArgs): PingArgs {
    PingArgs(Latest(us, RateIn, pa.rateHz), Latest(us, SizeIn, pa.sizeBytes), Latest(us, TriggerIn, pa.trigger))
  }

  function SpecOf(mode: ModeKey, us: seq<Unit>): ModeSpec {
    match mode
    case PubKey => PubSpec(PubMeaning(us, DEFAULT_PUB))
    case PingKey => PingSpec(PingMeaning(us, DEFAULT_PING))
    case SubKey => SubSpec(Latest(us, TriggerIn, Listener))
    case PongKey => PongSpec(Latest(us, TriggerIn, Listener))
    case _ => SANITY
  }

  function ModesOf(gs: seq<Group>): seq<ModeSpec> {
    if gs == [] then []
    else (if gs[0].Mode? then [SpecOf(gs[0].key.mode, gs[0].units)] else []) + ModesOf(gs[1..])
  }

  function FlagIn(key: OptKey): Group -> Option<bool> {
    (g: Group) => if g.Flag? && g.key.opt == key then Some(true) else None
  }

  function TopicIn(g: Group): Option<string> {
    if g.Valued? && g.key.opt.TopicOpt? then Some(g.value.text) else None
  }

  function KeepIn(g: Group): Option<(Keep, U32)> {
    if g.Valued? && g.key.opt.KeepOpt? then g.value.keep else None
  }

  function DurationIn(g: Group): Option<real> {
    if g.Valued? && g.key.opt.DurationOpt? then g.value.duration else None
  }

  function DomainIn(g: Group): Option<int> {
    if g.Valued? && g.key.opt.DomainOpt? then g.value.domain else None
  }

  function ExecutorIn(g: Group): Option<Executor> {
    if g.Valued? && g.key.opt.ExecutorOpt? then g.value.executor else None
  }

  /** The settings that some groups describe, on top of cfg. */
  function Describes(gs: seq<Group>, cfg: Settings): Settings {
    var keep := Latest(gs, KeepIn, (cfg.keepMode, cfg.keepDepth));
    Settings(cfg.modes + ModesOf(gs), Latest(gs, TopicIn, cfg.topic), Latest(gs, FlagIn(BestEffortOpt), cfg.bestEffort),
             keep.0, keep.1, Latest(gs, DurationIn, cfg.durationS), Latest(gs, FlagIn(IntraOpt), cfg.intraProcess),
             Latest(gs, FlagIn(LatencyOpt), cfg.reportLatency), Latest(gs, DomainIn, cfg.domainId),
             Latest(gs, ExecutorIn, cfg.executor))
  }

  // ---------------------------------------------------------------- the parser follows the groups

  predicate Ends(tail: seq<Token>) { tail == [] || tail[0].Boundary() }

  /** After a mode that takes sub-arguments only the end, an option or another mode can follow. */
  predicate MayFollow(gs: seq<Group>, tail: seq<Token>) {
    Ends(tail) || gs == [] || !gs[|gs| - 1].Mode? || gs[|gs| - 1].key.mode.SanityKey?
  }

  lemma Regroup<T>(a: seq<T>, b: seq<T>, c: seq<T>)
    ensures (a + b) + c == a + (b + c)
  {
  }

  lemma Rejoin<T>(s: seq<T>, n: nat)
    requires n <= |s|
    ensures s == s[..n] + s[n..]
  {
  }

  lemma Recut<T>(s: seq<T>, k: nat, n: nat)
    requires k <= n <= |s|
    ensures s[..k] + s[k..][..n - k] == s[..n] && s[k..][n - k..] == s[n..]
  {
  }

  lemma SplitUnits(us: seq<Unit>, tail: seq<Token>)
    requires us != []
    ensures UnitsTokens(us) + tail == UnitTokens(us[0]) + (UnitsTokens(us[1..]) + tail)
    ensures us == [us[0]] + us[1..] && |UnitsTokens(us)| == |UnitTokens(us[0])| + |UnitsTokens(us[1..])|
  {
    Regroup(UnitTokens(us[0]), UnitsTokens(us[1..]), tail);
  }

  lemma PubUnitStep(u: Unit, later: seq<Token>, pa: PubArgs)
    requires PubUnit(u)
    ensures var rest := UnitTokens(u) + later;
      !rest[0].Boundary() && rest[|UnitTokens(u)|..] == later
      && PubArg(rest, pa) == Taken(|UnitTokens(u)|, PubMeaning([u], pa))
  {
    LatestOne(u, PubRateIn, pa.rateHz);
    LatestOne(u, SizeIn, pa.sizeBytes);
    LatestOne(u, BurstIn, pa.burst);
    assert (UnitTokens(u) + later)[|UnitTokens(u)|..] == later;
  }

  lemma PubMeaningCons(u: Unit, us: seq<Unit>, pa: PubArgs)
    ensures PubMeaning([u] + us, pa) == PubMeaning(us, PubMeaning([u], pa))
  {
    LatestCons(u, us, PubRateIn, pa.rateHz);
    LatestCons(u, us, SizeIn, pa.sizeBytes);
    LatestCons(u, us, BurstIn, pa.burst);
  }

  lemma TakePubOne(u: Unit, later: seq<Token>, pa: PubArgs)
    requires PubUnit(u)
    ensures TakePub(UnitTokens(u) + later, pa) == After(|UnitTokens(u)|, TakePub(later, PubMeaning([u], pa)))
  {
    PubUnitStep(u, later, pa);
  }

  lemma {:induction false} TakePubUnits(us: seq<Unit>, tail: seq<Token>, pa: PubArgs)
    requires Ends(tail) && forall i :: 0 <= i < |us| ==> PubUnit(us[i])
    ensures TakePub(UnitsTokens(us) + tail, pa) == Taken(|UnitsTokens(us)|, PubMeaning(us, pa))
  {
    if us == [] {
      assert UnitsTokens(us) + tail == tail;
    } else {
      var u, more := us[0], us[1..];
      SplitUnits(us, tail);
      TakePubOne(u, UnitsTokens(more) + tail, pa);
      TakePubUnits(more, tail, PubMeaning([u], pa));
      PubMeaningCons(u, more, pa);
    }
  }

  lemma PingUnitStep(u: Unit, later: seq<Token>, pa: PingArgs)
    requires PingUnit(u)
    ensures var rest := UnitTokens(u) + later;
      !rest[0].Boundary() && rest[|UnitTokens(u)|..] == later
      && PingArg(rest, pa) == Taken(|UnitTokens(u)|, PingMeaning([u], pa))
  {
    LatestOne(u, RateIn, pa.rateHz);
    LatestOne(u, SizeIn, pa.sizeBytes);
    LatestOne(u, TriggerIn, pa.trigger);
    assert (UnitTokens(u) + later)[|UnitTokens(u)|..] == later;
  }

  lemma PingMeaningCons(u: Unit, us: seq<Unit>, pa: PingArgs)
    ensures PingMeaning([u] + us, pa) == PingMeaning(us, PingMeaning([u], pa))
  {
    LatestCons(u, us, RateIn, pa.rateHz);
    LatestCons(u, us, SizeIn, pa.sizeBytes);
    LatestCons(u, us, TriggerIn, pa.trigger);
  }

  lemma TakePingOne(u: Unit, later: seq<Token>, pa: PingArgs)
    requires PingUnit(u)
    ensures TakePing(UnitTokens(u) + later, pa) == After(|UnitTokens(u)|, TakePing(later, PingMeaning([u], pa)))
  {
    PingUnitStep(u, later, pa);
  }

  lemma {:induction false} TakePingUnits(us: seq<Unit>, tail: seq<Token>, pa: PingArgs)
    requires Ends(tail) && forall i :: 0 <= i < |us| ==> PingUnit(us[i])
    ensures TakePing(UnitsTokens(us) + tail, pa) == Taken(|UnitsTokens(us)|, PingMeaning(us, pa))
  {
    if us == [] {
      assert UnitsTokens(us) + tail == tail;
    } else {
      var u, more := us[0], us[1..];
      SplitUnits(us, tail);
      TakePingOne(u, UnitsTokens(more) + tail, pa);
      TakePingUnits(more, tail, PingMeaning([u], pa));
      PingMeaningCons(u, more, pa);
    }
  }

  lemma TakeTriggerOne(u: Unit, later: seq<Token>, tr: Trigger, mode: ModeKind)
    requires TriggerUnit(u)
    ensures TakeTriggers(UnitTokens(u) + later, tr, mode) == After(1, TakeTriggers(later, u.token.trigger.value, mode))
  {
    assert (UnitTokens(u) + later)[1..] == later;
  }

  lemma {:induction false} TakeTriggerUnits(us: seq<Unit>, tail: seq<Token>, tr: Trigger, mode: ModeKind)
    requires Ends(tail) && forall i :: 0 <= i < |us| ==> TriggerUnit(us[i])
    ensures TakeTriggers(UnitsTokens(us) + tail, tr, mode) == Taken(|UnitsTokens(us)|, Latest(us, TriggerIn, tr))
  {
    if us == [] {
      assert UnitsTokens(us) + tail == tail;
    } else {
      var u, more := us[0], us[1..];
      SplitUnits(us, tail);
      TakeTriggerOne(u, UnitsTokens(more) + tail, tr, mode);
      TakeTriggerUnits(more, tail, u.token.trigger.value, mode);
    }
  }

  /** One step of the parser takes exactly one group, if what follows a mode group ends its sub-arguments. */
  lemma ModeGroupStep(t: Token, us: seq<Unit>, tail: seq<Token>, cfg: Settings)
    requires !t.dash && UnitsFit(t.mode, us) && Ends(tail)
    ensures StepOf([t] + UnitsTokens(us) + tail, cfg) == Next(1 + |UnitsTokens(us)|, AddMode(cfg, SpecOf(t.mode, us)))
  {
    var rest := [t] + UnitsTokens(us) + tail;
    assert rest[1..] == UnitsTokens(us) + tail;
    match t.mode
    case PubKey => TakePubUnits(us, tail, DEFAULT_PUB);
    case PingKey => TakePingUnits(us, tail, DEFAULT_PING);
    case SubKey => TakeTriggerUnits(us, tail, Listener, KSub);
    case PongKey => TakeTriggerUnits(us, tail, Listener, KPong);
    case _ =>
  }

  /** What a single group does to the settings. */
  function Effect(g: Group, cfg: Settings): Settings
    requires WellFormed(g)
  {
    match g
    case Flag(t) => ApplyFlag(t.opt, cfg)
    case Valued(t, v) => ApplyValue(t.opt, v, cfg)
    case Mode(t, us) => AddMode(cfg, SpecOf(t.mode, us))
  }

  lemma DescribesOne(g: Group, cfg: Settings)
    requires WellFormed(g)
    ensures Describes([g], cfg) == Effect(g, cfg)
  {
    LatestOne(g, KeepIn, (cfg.keepMode, cfg.keepDepth));
    LatestOne(g, TopicIn, cfg.topic);
    LatestOne(g, FlagIn(BestEffortOpt), cfg.bestEffort);
    LatestOne(g, DurationIn, cfg.durationS);
    LatestOne(g, FlagIn(IntraOpt), cfg.intraProcess);
    LatestOne(g, FlagIn(LatencyOpt), cfg.reportLatency);
    LatestOne(g, DomainIn, cfg.domainId);
    LatestOne(g, ExecutorIn, cfg.executor);
    assert [g][1..] == [];
    assert ModesOf([g]) == if g.Mode? then [SpecOf(g.key.mode, g.units)] else [];
    assert cfg.modes + [] == cfg.modes;
  }

  lemma GroupStep(g: Group, tail: seq<Token>, cfg: Settings)
    requires WellFormed(g) && Ends(tail)
    ensures StepOf(GroupTokens(g) + tail, cfg) == Next(|GroupTokens(g)|, Describes([g], cfg))
  {
    DescribesOne(g, cfg);
    if g.Mode? {
      ModeGroupStep(g.key, g.units, tail, cfg);
    }
  }

  lemma DescribesMore(g: Group, gs: seq<Group>, cfg: Settings)
    ensures Describes([g] + gs, cfg) == Describes(gs, Describes([g], cfg))
  {
    LatestCons(g, gs, KeepIn, (cfg.keepMode, cfg.keepDepth));
    LatestCons(g, gs, TopicIn, cfg.topic);
    LatestCons(g, gs, FlagIn(BestEffortOpt), cfg.bestEffort);
    LatestCons(g, gs, DurationIn, cfg.durationS);
    LatestCons(g, gs, FlagIn(IntraOpt), cfg.intraProcess);
    LatestCons(g, gs, FlagIn(LatencyOpt), cfg.reportLatency);
    LatestCons(g, gs, DomainIn, cfg.domainId);
    LatestCons(g, gs, ExecutorIn, cfg.executor);
    assert ([g] + gs)[1..] == gs && [g][1..] == [];
    assert cfg.modes + ModesOf([g] + gs) == cfg.modes + ModesOf([g]) + ModesOf(gs);
  }

  lemma GroupStart(g: Group)
    requires WellFormed(g)
    ensures GroupTokens(g) != [] && GroupTokens(g)[0] == g.key && g.key.Boundary()
  {
  }

  lemma FlattenEnds(gs: seq<Group>, tail: seq<Token>)
    requires AllWellFormed(gs) && Ends(tail)
    ensures Ends(Flatten(gs) + tail)
  {
    if gs != [] {
      GroupStart(gs[0]);
    }
  }

  lemma SplitGroups(gs: seq<Group>, tail: seq<Token>)
    requires gs != []
    ensures Flatten(gs) + tail == GroupTokens(gs[0]) + (Flatten(gs[1..]) + tail) && gs == [gs[0]] + gs[1..]
  {
    Regroup(GroupTokens(gs[0]), Flatten(gs[1..]), tail);
  }

  lemma ParseOneGroup(g: Group, later: seq<Token>, cfg: Settings)
    requires WellFormed(g) && Ends(later)
    ensures ParseRest(GroupTokens(g) + later, cfg) == ParseRest(later, Describes([g], cfg))
  {
    GroupStart(g);
    GroupStep(g, later, cfg);
    assert (GroupTokens(g) + later)[|GroupTokens(g)|..] == later;
  }

  lemma DescribesNone(cfg: Settings)
    ensures Describes([], cfg) == cfg
  {
    assert cfg.modes + [] == cfg.modes;
  }

  /** The parser works its way through well-formed groups and arrives at what follows them. */
  lemma {:induction false} FollowGroups(gs: seq<Group>, tail: seq<Token>, cfg: Settings)
    requires AllWellFormed(gs) && Ends(tail)
    ensures ParseRest(Flatten(gs) + tail, cfg) == ParseRest(tail, Describes(gs, cfg))
  {
    if gs == [] {
      assert Flatten(gs) + tail == tail;
      DescribesNone(cfg);
    } else {
      var g, more := gs[0], gs[1..];
      SplitGroups(gs, tail);
      FlattenEnds(more, tail);
      ParseOneGroup(g, Flatten(more) + tail, cfg);
      FollowGroups(more, tail, Describes([g], cfg));
      DescribesMore(g, more, cfg);
    }
  }

  // ---------------------------------------------------------------- and finds the groups

  /** The first sub-argument of pub. */
  lemma FindPubUnit(rest: seq<Token>, pa: PubArgs) returns (u: Unit)
    requires rest != [] && !rest[0].Boundary() && PubArg(rest, pa).Taken?
    ensures PubUnit(u)
    ensures PubArg(rest, pa).n <= |rest| && UnitTokens(u) == rest[..PubArg(rest, pa).n]
  {
    u := if PubArg(rest, pa).n == 2 then Pair(rest[0], rest[1]) else Lone(rest[0]);
  }

  lemma {:induction false} FindPubUnits(rest: seq<Token>, pa: PubArgs) returns (us: seq<Unit>)
    requires TakePub(rest, pa).Taken?
    ensures forall i :: 0 <= i < |us| ==> PubUnit(us[i])
    ensures var n := TakePub(rest, pa).n;
      n <= |rest| && UnitsTokens(us) == rest[..n] && Ends(rest[n..])
  {
    PubBounds(rest, pa);
    if rest == [] || rest[0].Boundary() {
      us := [];
    } else {
      var k := PubArg(rest, pa).n;
      var u := FindPubUnit(rest, pa);
      var more := FindPubUnits(rest[k..], PubArg(rest, pa).args);
      us := [u] + more;
      OneMoreUnit(u, more, PubUnit);
      JoinUnits(u, more, rest, k, TakePub(rest, pa).n);
    }
  }

  lemma OneMoreUnit(u: Unit, more: seq<Unit>, fits: Unit -> bool)
    requires fits(u) && forall i :: 0 <= i < |more| ==> fits(more[i])
    ensures forall i :: 0 <= i < |[u] + more| ==> fits(([u] + more)[i])
  {
  }

  /** The first sub-argument of ping. */
  lemma FindPingUnit(rest: seq<Token>, pa: PingArgs) returns (u: Unit)
    requires rest != [] && !rest[0].Boundary() && PingArg(rest, pa).Taken?
    ensures PingUnit(u)
    ensures PingArg(rest, pa).n <= |rest| && UnitTokens(u) == rest[..PingArg(rest, pa).n]
  {
    u := if PingArg(rest, pa).n == 2 then Pair(rest[0], rest[1]) else Lone(rest[0]);
  }

  lemma {:induction false} FindPingUnits(rest: seq<Token>, pa: PingArgs) returns (us: seq<Unit>)
    requires TakePing(rest, pa).Taken?
    ensures forall i :: 0 <= i < |us| ==> PingUnit(us[i])
    ensures var n := TakePing(rest, pa).n;
      n <= |rest| && UnitsTokens(us) == rest[..n] && Ends(rest[n..])
  {
    PingBounds(rest, pa);
    if rest == [] || rest[0].Boundary() {
      us := [];
    } else {
      var k := PingArg(rest, pa).n;
      var u := FindPingUnit(rest, pa);
      var more := FindPingUnits(rest[k..], PingArg(rest, pa).args);
      us := [u] + more;
      OneMoreUnit(u, more, PingUnit);
      JoinUnits(u, more, rest, k, TakePing(rest, pa).n);
    }
  }

  lemma {:induction false} FindTriggerUnits(rest: seq<Token>, tr: Trigger, mode: ModeKind) returns (us: seq<Unit>)
    requires TakeTriggers(rest, tr, mode).Taken?
    ensures forall i :: 0 <= i < |us| ==> TriggerUnit(us[i])
    ensures var n := TakeTriggers(rest, tr, mode).n;
      n <= |rest| && UnitsTokens(us) == rest[..n] && Ends(rest[n..])
  {
    TriggerBounds(rest, tr, mode);
    if rest == [] || rest[0].Boundary() {
      us := [];
    } else {
      var u := Lone(rest[0]);
      var more := FindTriggerUnits(rest[1..], rest[0].trigger.value, mode);
      us := [u] + more;
      JoinUnits(u, more, rest, 1, TakeTriggers(rest, tr, mode).n);
    }
  }

  lemma JoinUnits(u: Unit, more: seq<Unit>, rest: seq<Token>, k: nat, n: nat)
    requires k <= n <= |rest| && UnitTokens(u) == rest[..k] && UnitsTokens(more) == rest[k..][..n - k]
    ensures UnitsTokens([u] + more) == rest[..n] && rest[k..][n - k..] == rest[n..]
  {
    assert ([u] + more)[1..] == more;
    Recut(rest, k, n);
  }

  /** A step that consumes tokens consumes a well-formed group, and does what the group says. */
  lemma FindGroup(rest: seq<Token>, cfg: Settings) returns (g: Group)
    requires rest != [] && StepOf(rest, cfg).Next?
    ensures WellFormed(g)
    ensures var r := StepOf(rest, cfg);
      r.n <= |rest| && GroupTokens(g) == rest[..r.n] && r.cfg == Describes([g], cfg) && MayFollow([g], rest[r.n..])
  {
    StepBounds(rest, cfg);
    var t := rest[0];
    if t.dash {
      if IsFlag(t.opt) {
        g := Flag(t);
      } else {
        g := Valued(t, rest[1]);
      }
      DescribesOne(g, cfg);
    } else {
      g := FindMode(rest, cfg);
    }
  }

  /** The sub-arguments that a mode step consumes. */
  lemma FindModeUnits(rest: seq<Token>, cfg: Settings) returns (us: seq<Unit>)
    requires rest != [] && ModeStep(rest, cfg).Next?
    ensures UnitsFit(rest[0].mode, us)
    ensures var n := ModeStep(rest, cfg).n;
      1 <= n <= |rest| && UnitsTokens(us) == rest[1..][..n - 1] && (Ends(rest[1..][n - 1..]) || rest[0].mode.SanityKey?)
  {
    us := [];
    match rest[0].mode {
      case PubKey => us := FindPubUnits(rest[1..], DEFAULT_PUB);
      case PingKey => us := FindPingUnits(rest[1..], DEFAULT_PING);
      case SubKey => us := FindTriggerUnits(rest[1..], Listener, KSub);
      case PongKey => us := FindTriggerUnits(rest[1..], Listener, KPong);
      case _ =>
    }
  }

  lemma ModeTokens(rest: seq<Token>, args: seq<Token>, n: nat, tail: seq<Token>)
    requires 1 <= n <= |rest| && args == rest[1..][..n - 1] && tail == rest[1..][n - 1..]
    ensures rest == [rest[0]] + args + tail && [rest[0]] + args == rest[..n] && rest[n..] == tail
  {
  }

  lemma FindMode(rest: seq<Token>, cfg: Settings) returns (g: Group)
    requires rest != [] && !rest[0].dash && ModeStep(rest, cfg).Next?
    ensures WellFormed(g)
    ensures var r := ModeStep(rest, cfg);
      r.n <= |rest| && GroupTokens(g) == rest[..r.n] && r.cfg == Describes([g], cfg) && MayFollow([g], rest[r.n..])
  {
    var n := ModeStep(rest, cfg).n;
    var us := FindModeUnits(rest, cfg);
    g := Mode(rest[0], us);
    DescribesOne(g, cfg);
    var tail := rest[1..][n - 1..];
    ModeTokens(rest, UnitsTokens(us), n, tail);
    if !rest[0].mode.SanityKey? {
      ModeGroupStep(rest[0], us, tail, cfg);
    }
  }

  /** The parse of any token list: well-formed groups, then either nothing or the token list at which it stops. */
  lemma {:induction false} FindGroups(rest: seq<Token>, cfg: Settings) returns (gs: seq<Group>, tail: seq<Token>)
    ensures AllWellFormed(gs) && rest == Flatten(gs) + tail && MayFollow(gs, tail)
    ensures tail != [] ==> StepOf(tail, Describes(gs, cfg)).Halt?
    ensures ParseRest(rest, cfg) == ParseRest(tail, Describes(gs, cfg))
  {
    if rest == [] || StepOf(rest, cfg).Halt? {
      gs, tail := [], rest;
      DescribesNone(cfg);
    } else {
      StepBounds(rest, cfg);
      var g := FindGroup(rest, cfg);
      var n := StepOf(rest, cfg).n;
      var more;
      more, tail := FindGroups(rest[n..], Describes([g], cfg));
      gs := [g] + more;
      DescribesMore(g, more, cfg);
      JoinGroups(g, more, tail, rest, n);
    }
  }

  lemma JoinGroups(g: Group, more: seq<Group>, tail: seq<Token>, rest: seq<Token>, n: nat)
    requires n <= |rest| && GroupTokens(g) == rest[..n] && rest[n..] == Flatten(more) + tail
    requires WellFormed(g) && AllWellFormed(more)
    ensures rest == Flatten([g] + more) + tail && AllWellFormed([g] + more)
  {
    var gs := [g] + more;
    assert gs[0] == g && gs[1..] == more;
    SplitGroups(gs, tail);
    Rejoin(rest, n);
  }

  // ---------------------------------------------------------------- the language

  /** A command line: well-formed groups with at least one mode among them. */
  ghost predicate Sentence(gs: seq<Group>, toks: seq<string>) {
    AllWellFormed(gs) && Flatten(gs) == LexAll(toks) && ModesOf(gs) != []
  }

  predicate AsksForHelp(t: Token) {
    if t.dash then t.opt.HelpOpt? else t.mode.HelpKey?
  }

  predicate AsksForVersion(t: Token) {
    t.dash && t.opt.VersionOpt?
  }

  /** A command line that is fine up to a token that asks for something else; the rest is never looked at. */
  ghost predicate StopsAt(gs: seq<Group>, stop: Token, rest: seq<Token>, toks: seq<string>) {
    AllWellFormed(gs) && LexAll(toks) == Flatten(gs) + ([stop] + rest)
  }

  /** An accepted command line means what its groups say. */
  lemma SentenceMeaning(gs: seq<Group>, toks: seq<string>)
    requires Sentence(gs, toks)
    ensures Parse(toks) == ParseResult(Good, Describes(gs, DEFAULT_SETTINGS), NoComplaint)
  {
    assert Flatten(gs) + [] == Flatten(gs);
    FollowGroups(gs, [], DEFAULT_SETTINGS);
  }

  lemma StopMeaning(gs: seq<Group>, stop: Token, rest: seq<Token>, toks: seq<string>)
    requires StopsAt(gs, stop, rest, toks) && (AsksForHelp(stop) || AsksForVersion(stop))
    ensures AsksForHelp(stop) ==> Parse(toks).status.Help?
    ensures AsksForVersion(stop) ==> Parse(toks).status.Version?
  {
    var tail := [stop] + rest;
    assert Ends(tail);
    FollowGroups(gs, tail, DEFAULT_SETTINGS);
    HaltReasons(tail, Describes(gs, DEFAULT_SETTINGS));
  }

  lemma HaltReasons(rest: seq<Token>, cfg: Settings)
    requires rest != [] && StepOf(rest, cfg).Halt?
    ensures !ParseRest(rest, cfg).status.Good?
    ensures ParseRest(rest, cfg).status.Help? <==> AsksForHelp(rest[0])
    ensures ParseRest(rest, cfg).status.Version? <==> AsksForVersion(rest[0])
  {
  }

  /** Where the parse of a command line ends: after its last group, or at the token that stops it. */
  lemma ParseEnds(toks: seq<string>) returns (gs: seq<Group>, tail: seq<Token>)
    ensures AllWellFormed(gs) && LexAll(toks) == Flatten(gs) + tail && MayFollow(gs, tail)
    ensures Parse(toks) == ParseRest(tail, Describes(gs, DEFAULT_SETTINGS))
    ensures tail == [] ==> Flatten(gs) == LexAll(toks)
    ensures tail != [] ==> StopsAt(gs, tail[0], tail[1..], toks) && StepOf(tail, Describes(gs, DEFAULT_SETTINGS)).Halt?
  {
    gs, tail := FindGroups(LexAll(toks), DEFAULT_SETTINGS);
    if tail == [] {
      assert Flatten(gs) + tail == Flatten(gs);
    } else {
      StopsHere(gs, tail, LexAll(toks), toks);
    }
  }

  lemma HeadFirst<T>(s: seq<T>)
    requires s != []
    ensures s == [s[0]] + s[1..]
  {
  }

  lemma StopsHere(gs: seq<Group>, tail: seq<Token>, ts: seq<Token>, toks: seq<string>)
    requires AllWellFormed(gs) && ts == Flatten(gs) + tail && tail != [] && ts == LexAll(toks)
    ensures StopsAt(gs, tail[0], tail[1..], toks)
  {
    HeadFirst(tail);
  }

  /** The parser accepts exactly the command lines of the grammar. */
  lemma AcceptsExactly(toks: seq<string>)
    ensures Parse(toks).status.Good? <==> exists gs :: Sentence(gs, toks)
  {
    if gs :| Sentence(gs, toks) {
      SentenceMeaning(gs, toks);
    }
    var gs, tail := ParseEnds(toks);
    if tail == [] {
      assert ModesOf(gs) != [] ==> Sentence(gs, toks);
    } else {
      HaltReasons(tail, Describes(gs, DEFAULT_SETTINGS));
    }
  }

  /** It shows the help text exactly when the first token outside the well-formed groups asks for it. */
  lemma HelpsExactly(toks: seq<string>)
    ensures Parse(toks).status.Help? <==> exists gs, stop, rest :: StopsAt(gs, stop, rest, toks) && AsksForHelp(stop)
  {
    if gs, stop, rest :| StopsAt(gs, stop, rest, toks) && AsksForHelp(stop) {
      StopMeaning(gs, stop, rest, toks);
    }
    var gs, tail := ParseEnds(toks);
    if tail != [] {
      HaltReasons(tail, Describes(gs, DEFAULT_SETTINGS));
    }
  }

  /** Likewise for the version. */
  lemma ShowsVersionExactly(toks: seq<string>)
    ensures Parse(toks).status.Version?
       <==> exists gs, stop, rest :: StopsAt(gs, stop, rest, toks) && AsksForVersion(stop)
  {
    if gs, stop, rest :| StopsAt(gs, stop, rest, toks) && AsksForVersion(stop) {
      StopMeaning(gs, stop, rest, toks);
    }
    var gs, tail := ParseEnds(toks);
    if tail != [] {
      HaltReasons(tail, Describes(gs, DEFAULT_SETTINGS));
    }
  }
}
