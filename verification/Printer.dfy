/** Writing settings back as a command line. */
module Printer {
  import opened Args
  import opened Config
  import opened Equivalence
  import opened Grammar
  import opened Numbers
  import opened Wire

  // ---------------------------------------------------------------- what can be written

  ghost predicate AchievableMode(m: ModeSpec) {
    match m.kind
    case KPub => m == PubSpec(m.pub) && Terminating(m.pub.rateHz)
    case KSub => m == SubSpec(m.sub.trigger)
    case KPing => m == PingSpec(m.ping) && Terminating(m.ping.rateHz)
    case KPong => m == PongSpec(m.pong.trigger)
  }

  /** At least one mode, the unused argument groups at their defaults, non-negative decimal rates and
      duration, a domain in range, and no depth with keep-all. */
  ghost predicate Achievable(cfg: Settings) {
    && cfg.modes != []
    && (forall i :: 0 <= i < |cfg.modes| ==> AchievableMode(cfg.modes[i]))
    && (cfg.keepMode.KeepAll? ==> cfg.keepDepth == 0)
    && Terminating(cfg.durationS)
    && -1 <= cfg.domainId <= 232
  }

  // ---------------------------------------------------------------- printing

  /** A count; 0 can only be written as a number that the narrowing cast turns into 0. */
  function CountText(n: U32): string { Digits(if n == 0 then TWO_32 else n) }

  function KeepText(mode: Keep, depth: U32): string {
    if mode.KeepAll? then "all" else CountText(depth)
  }

  function TriggerText(t: Trigger): string { if t.Listener? then "listener" else "waitset" }

  function ExecutorText(e: Executor): string {
    match e
    case Single => "single"
    case Multi => "multi"
    case Static => "static"
  }

  function Switch(on: bool, flag: string): seq<Group> { if on then [Flag(Lex(flag))] else [] }

  function Setting(option: string, value: string): seq<Group> { [Valued(Lex(option), Lex(value))] }

  function DomainSetting(id: int): seq<Group> {
    if id < 0 then [] else Setting("-i", Digits(id))
  }

  ghost function OptionGroups(cfg: Settings): seq<Group>
    requires Achievable(cfg)
  {
    Setting("-t", cfg.topic)
    + (Switch(cfg.bestEffort, "-u")
    + (Setting("-k", KeepText(cfg.keepMode, cfg.keepDepth))
    + (Setting("-D", PrintReal(cfg.durationS))
    + LastOptions(cfg))))
  }

  ghost function LastOptions(cfg: Settings): seq<Group>
    requires Achievable(cfg)
  {
    Switch(cfg.intraProcess, "-L")
    + (Switch(cfg.reportLatency, "-l")
    + (DomainSetting(cfg.domainId)
    + Setting("-E", ExecutorText(cfg.executor))))
  }

  function Rate(text: string): Unit { Lone(Lex(text)) }

  function SizeUnit(n: U32): Unit { Pair(Lex("size"), Lex(Digits(n))) }

  function BurstUnit(n: U32): Unit { Pair(Lex("burst"), Lex(CountText(n))) }

  function TriggerWord(t: Trigger): Unit { Lone(Lex(TriggerText(t))) }

  ghost function PubUnits(a: PubArgs): seq<Unit>
    requires Terminating(a.rateHz)
  {
    [Rate(PrintReal(a.rateHz)), SizeUnit(a.sizeBytes), BurstUnit(a.burst)]
  }

  ghost function PingUnits(a: PingArgs): seq<Unit>
    requires Terminating(a.rateHz)
  {
    [Rate(PrintReal(a.rateHz)), SizeUnit(a.sizeBytes), TriggerWord(a.trigger)]
  }

  ghost function ModeGroup(m: ModeSpec): Group
    requires AchievableMode(m)
  {
    match m.kind
    case KPub => Mode(Lex("pub"), PubUnits(m.pub))
    case KSub => Mode(Lex("sub"), [TriggerWord(m.sub.trigger)])
    case KPing => Mode(Lex("ping"), PingUnits(m.ping))
    case KPong => Mode(Lex("pong"), [TriggerWord(m.pong.trigger)])
  }

  ghost function ModeGroups(ms: seq<ModeSpec>): seq<Group>
    requires forall i :: 0 <= i < |ms| ==> AchievableMode(ms[i])
  {
    if ms == [] then [] else [ModeGroup(ms[0])] + ModeGroups(ms[1..])
  }

  function Text(t: Token): string { t.text }

  /** The command line: every option, then the modes in their order. */
  ghost function Print(cfg: Settings): seq<string>
    requires Achievable(cfg)
  {
    Map(Flatten(OptionGroups(cfg) + ModeGroups(cfg.modes)), Text)
  }

  // ---------------------------------------------------------------- the words mean what they should

  lemma OptionWords()
    ensures OptKeyOf("-t") == TopicOpt && OptKeyOf("-k") == KeepOpt && OptKeyOf("-D") == DurationOpt
    ensures OptKeyOf("-i") == DomainOpt && OptKeyOf("-E") == ExecutorOpt
    ensures OptKeyOf("-u") == BestEffortOpt && OptKeyOf("-L") == IntraOpt && OptKeyOf("-l") == LatencyOpt
  {
    assert "-h"[1] == 'h' && "-u"[1] == 'u' && "-L"[1] == 'L' && "-l"[1] == 'l' && "-k"[1] == 'k';
    assert "-D"[1] == 'D' && "-i"[1] == 'i' && "-t"[1] == 't' && "-E"[1] == 'E';
  }

  lemma ModeWords()
    ensures ModeKeyOf("pub") == PubKey && ModeKeyOf("sub") == SubKey
    ensures ModeKeyOf("ping") == PingKey && ModeKeyOf("pong") == PongKey
  {
    assert "pub"[0] == 'p' && "sub"[0] == 's' && "ping"[1] == 'i' && "pong"[1] == 'o';
  }

  lemma UnitWords()
    ensures ModeKeyOf("size") == NoMode && WordOf("size") == SizeWord
    ensures ModeKeyOf("burst") == NoMode && WordOf("burst") == BurstWord
  {
    assert "size"[0] == 's' && "size"[1] == 'i' && "burst"[0] == 'b';
    assert "pong"[0] == 'p' && "ping"[0] == 'p' && "help"[0] == 'h';
  }

  lemma TriggerWords(t: Trigger)
    ensures var w := TriggerText(t);
      w != "" && w[0] != '-' && ModeKeyOf(w) == NoMode && WordOf(w) == OtherWord && TriggerOf(w) == Some(t)
  {
    assert "listener"[0] == 'l' && "waitset"[0] == 'w';
  }

  lemma ExecutorWords(e: Executor)
    ensures ExecutorOf(ExecutorText(e)) == Some(e)
  {
    assert "single"[1] == 'i' && "static"[1] == 't' && "multi"[0] == 'm';
  }

  lemma KeepWords(mode: Keep, depth: U32)
    requires mode.KeepAll? ==> depth == 0
    ensures KeepOf(KeepText(mode, depth)) == Some((mode, depth))
  {
    if mode.KeepLast? {
      CountRead(depth);
      assert IsDigit(CountText(depth)[0]) && "all"[0] == 'a';
    }
  }

  lemma CountRead(n: U32)
    ensures Count(CountText(n)) == Some(n)
  {
    StrictInt64OfDigits(if n == 0 then TWO_32 else n);
  }

  lemma DomainRead(n: nat)
    requires n <= 232
    ensures Domain(Digits(n)) == Some(n)
  {
    StrictInt64OfDigits(n);
  }

  lemma RateRead(r: real)
    requires Terminating(r)
    ensures Frequency(PrintReal(r)) == Some(r) && Duration(PrintReal(r)) == Some(r)
    ensures var w := PrintReal(r); w != "" && IsDigit(w[0])
  {
    PrintedReal(r);
    TerminatingNonNegative(r);
    PlainNumber(PrintReal(r), r);
  }

  // ---------------------------------------------------------------- the printed groups

  /** Some groups are well formed and turn the settings `before` into `after`. */
  ghost predicate Turns(gs: seq<Group>, before: Settings, after: Settings) {
    AllWellFormed(gs) && Describes(gs, before) == after
  }

  lemma {:induction false} DescribesConcat(a: seq<Group>, b: seq<Group>, cfg: Settings)
    ensures Describes(a + b, cfg) == Describes(b, Describes(a, cfg))
  {
    if a == [] {
      assert a + b == b;
      DescribesNone(cfg);
    } else {
      var g, rest := a[0], a[1..];
      assert a == [g] + rest && a + b == [g] + (rest + b);
      DescribesMore(g, rest + b, cfg);
      DescribesMore(g, rest, cfg);
      DescribesConcat(rest, b, Describes([g], cfg));
    }
  }

  lemma TurnsConcat(a: seq<Group>, b: seq<Group>, before: Settings, between: Settings, after: Settings)
    requires Turns(a, before, between) && Turns(b, between, after)
    ensures Turns(a + b, before, after)
  {
    DescribesConcat(a, b, before);
  }

  lemma OptionToken(option: string, key: OptKey)
    requires option != "" && option[0] == '-' && OptKeyOf(option) == key
    ensures Lex(option).dash && Lex(option).opt == key
  {
  }

  lemma ValuedTurns(o: Token, v: Token, key: OptKey, cfg: Settings)
    requires o.dash && o.opt == key && IsValued(key) && ValidValue(key, v)
    ensures Turns([Valued(o, v)], cfg, ApplyValue(key, v, cfg))
  {
    DescribesOne(Valued(o, v), cfg);
  }

  lemma SwitchTurns(on: bool, o: Token, key: OptKey, cfg: Settings)
    requires o.dash && o.opt == key && IsFlag(key)
    ensures Turns(if on then [Flag(o)] else [], cfg, if on then ApplyFlag(key, cfg) else cfg)
  {
    if on {
      DescribesOne(Flag(o), cfg);
    } else {
      DescribesNone(cfg);
    }
  }

  lemma TopicTurns(cfg: Settings, topic: string)
    ensures Turns(Setting("-t", topic), cfg, cfg.(topic := topic))
  {
    OptionWords();
    OptionToken("-t", TopicOpt);
    ValuedTurns(Lex("-t"), Lex(topic), TopicOpt, cfg);
  }

  lemma KeepTurns(cfg: Settings, text: string, mode: Keep, depth: U32)
    requires KeepOf(text) == Some((mode, depth))
    ensures Turns(Setting("-k", text), cfg, cfg.(keepMode := mode, keepDepth := depth))
  {
    OptionWords();
    OptionToken("-k", KeepOpt);
    ValuedTurns(Lex("-k"), Lex(text), KeepOpt, cfg);
  }

  lemma DurationTurns(cfg: Settings, text: string, d: real)
    requires Duration(text) == Some(d)
    ensures Turns(Setting("-D", text), cfg, cfg.(durationS := d))
  {
    OptionWords();
    OptionToken("-D", DurationOpt);
    ValuedTurns(Lex("-D"), Lex(text), DurationOpt, cfg);
  }

  lemma DomainTurns(cfg: Settings, id: int)
    requires -1 <= id <= 232 && cfg.domainId == -1
    ensures Turns(DomainSetting(id), cfg, cfg.(domainId := id))
  {
    OptionWords();
    OptionToken("-i", DomainOpt);
    if id >= 0 {
      DomainRead(id);
      ValuedTurns(Lex("-i"), Lex(Digits(id)), DomainOpt, cfg);
    } else {
      DescribesNone(cfg);
    }
  }

  lemma ExecutorTurns(cfg: Settings, text: string, e: Executor)
    requires ExecutorOf(text) == Some(e)
    ensures Turns(Setting("-E", text), cfg, cfg.(executor := e))
  {
    OptionWords();
    OptionToken("-E", ExecutorOpt);
    ValuedTurns(Lex("-E"), Lex(text), ExecutorOpt, cfg);
  }

  lemma BestEffortTurns(cfg: Settings, on: bool)
    requires !cfg.bestEffort
    ensures Turns(Switch(on, "-u"), cfg, cfg.(bestEffort := on))
  {
    OptionWords();
    OptionToken("-u", BestEffortOpt);
    SwitchTurns(on, Lex("-u"), BestEffortOpt, cfg);
  }

  lemma IntraTurns(cfg: Settings, on: bool)
    requires !cfg.intraProcess
    ensures Turns(Switch(on, "-L"), cfg, cfg.(intraProcess := on))
  {
    OptionWords();
    OptionToken("-L", IntraOpt);
    SwitchTurns(on, Lex("-L"), IntraOpt, cfg);
  }

  lemma LatencyTurns(cfg: Settings, on: bool)
    requires !cfg.reportLatency
    ensures Turns(Switch(on, "-l"), cfg, cfg.(reportLatency := on))
  {
    OptionWords();
    OptionToken("-l", LatencyOpt);
    SwitchTurns(on, Lex("-l"), LatencyOpt, cfg);
  }

  lemma OptionsTurn(cfg: Settings)
    requires Achievable(cfg)
    ensures Turns(OptionGroups(cfg), DEFAULT_SETTINGS, cfg.(modes := []))
  {
    var c0 := DEFAULT_SETTINGS;
    var c1 := c0.(topic := cfg.topic);
    var c2 := c1.(bestEffort := cfg.bestEffort);
    var c3 := c2.(keepMode := cfg.keepMode, keepDepth := cfg.keepDepth);
    var c4 := c3.(durationS := cfg.durationS);
    var c5 := c4.(intraProcess := cfg.intraProcess);
    var c6 := c5.(reportLatency := cfg.reportLatency);
    var c7 := c6.(domainId := cfg.domainId);
    var c8 := c7.(executor := cfg.executor);
    assert c8 == cfg.(modes := []);
    LastOptionsTurn(cfg, c4, c5, c6, c7, c8);
    TopicTurns(c0, cfg.topic);
    BestEffortTurns(c1, cfg.bestEffort);
    KeepWords(cfg.keepMode, cfg.keepDepth);
    KeepTurns(c2, KeepText(cfg.keepMode, cfg.keepDepth), cfg.keepMode, cfg.keepDepth);
    RateRead(cfg.durationS);
    DurationTurns(c3, PrintReal(cfg.durationS), cfg.durationS);
    var g1, g2 := Setting("-t", cfg.topic), Switch(cfg.bestEffort, "-u");
    var g3, g4 := Setting("-k", KeepText(cfg.keepMode, cfg.keepDepth)), Setting("-D", PrintReal(cfg.durationS));
    TurnsConcat(g4, LastOptions(cfg), c3, c4, c8);
    ThreeMoreTurn(g1, g2, g3, g4 + LastOptions(cfg), c0, c1, c2, c3, c8);
  }

  lemma ThreeMoreTurn(a: seq<Group>, b: seq<Group>, c: seq<Group>, d: seq<Group>,
                      s0: Settings, s1: Settings, s2: Settings, s3: Settings, s4: Settings)
    requires Turns(a, s0, s1) && Turns(b, s1, s2) && Turns(c, s2, s3) && Turns(d, s3, s4)
    ensures Turns(a + (b + (c + d)), s0, s4)
  {
    TurnsConcat(c, d, s2, s3, s4);
    TurnsConcat(b, c + d, s1, s2, s4);
    TurnsConcat(a, b + (c + d), s0, s1, s4);
  }

  lemma LastOptionsTurn(cfg: Settings, c4: Settings, c5: Settings, c6: Settings, c7: Settings, c8: Settings)
    requires Achievable(cfg) && !c4.intraProcess && !c4.reportLatency && c4.domainId == -1
    requires c5 == c4.(intraProcess := cfg.intraProcess) && c6 == c5.(reportLatency := cfg.reportLatency)
    requires c7 == c6.(domainId := cfg.domainId) && c8 == c7.(executor := cfg.executor)
    ensures Turns(LastOptions(cfg), c4, c8)
  {
    IntraTurns(c4, cfg.intraProcess);
    LatencyTurns(c5, cfg.reportLatency);
    DomainTurns(c6, cfg.domainId);
    ExecutorWords(cfg.executor);
    ExecutorTurns(c7, ExecutorText(cfg.executor), cfg.executor);
    ThreeMoreTurn(Switch(cfg.intraProcess, "-L"), Switch(cfg.reportLatency, "-l"), DomainSetting(cfg.domainId),
                  Setting("-E", ExecutorText(cfg.executor)), c4, c5, c6, c7, c8);
  }

  // ---------------------------------------------------------------- the printed modes

  lemma RateUnit(r: real)
    requires Terminating(r)
    ensures var u := Rate(PrintReal(r));
      PubUnit(u) && PingUnit(u) && u.Lone? && u.token.frequency == Some(r) && u.token.trigger == None
  {
    RateRead(r);
    NumberWord(PrintReal(r));
  }

  lemma SizeReads(n: U32)
    ensures PubUnit(SizeUnit(n)) && PingUnit(SizeUnit(n))
    ensures SizeUnit(n).Pair? && SizeIn(SizeUnit(n)) == Some(n) && BurstIn(SizeUnit(n)) == None
  {
    UnitWords();
    PrintedSize(n);
    assert "size"[0] == 's';
  }

  lemma BurstReads(n: U32)
    ensures PubUnit(BurstUnit(n))
    ensures BurstUnit(n).Pair? && BurstIn(BurstUnit(n)) == Some(n) && SizeIn(BurstUnit(n)) == None
  {
    UnitWords();
    CountRead(n);
    assert "burst"[0] == 'b';
  }

  lemma TriggerReads(t: Trigger)
    ensures TriggerUnit(TriggerWord(t)) && PingUnit(TriggerWord(t))
    ensures TriggerWord(t).Lone? && TriggerIn(TriggerWord(t)) == Some(t)
  {
    TriggerWords(t);
  }

  /** The last value given, in a run of three. */
  lemma LatestOfThree<A, T>(x: A, y: A, z: A, pick: A -> Option<T>, default: T)
    ensures Latest([x, y, z], pick, default)
         == match pick(z) case Some(v) => v
            case None => match pick(y) case Some(v) => v
            case None => match pick(x) case Some(v) => v case None => default
  {
    assert [x, y, z] == [x] + ([y] + [z]);
    LatestCons(x, [y] + [z], pick, default);
    LatestOne(x, pick, default);
    LatestCons(y, [z], pick, Latest([x], pick, default));
    LatestOne(y, pick, Latest([x], pick, default));
    LatestOne(z, pick, Latest([y], pick, Latest([x], pick, default)));
  }

  lemma PubUnitsMean(r: Unit, s: Unit, b: Unit, a: PubArgs)
    requires PubUnit(r) && PubUnit(s) && PubUnit(b)
    requires r.Lone? && r.token.frequency == Some(a.rateHz)
    requires s.Pair? && SizeIn(s) == Some(a.sizeBytes) && BurstIn(s) == None
    requires b.Pair? && SizeIn(b) == None && BurstIn(b) == Some(a.burst)
    ensures UnitsFit(PubKey, [r, s, b]) && SpecOf(PubKey, [r, s, b]) == PubSpec(a)
  {
    LatestOfThree(r, s, b, PubRateIn, 0.0);
    LatestOfThree(r, s, b, SizeIn, 12);
    LatestOfThree(r, s, b, BurstIn, 1);
  }

  lemma PingUnitsMean(r: Unit, s: Unit, t: Unit, a: PingArgs)
    requires PingUnit(r) && PingUnit(s) && PingUnit(t)
    requires r.Lone? && r.token.frequency == Some(a.rateHz) && r.token.trigger == None
    requires s.Pair? && SizeIn(s) == Some(a.sizeBytes)
    requires t.Lone? && TriggerIn(t) == Some(a.trigger)
    ensures UnitsFit(PingKey, [r, s, t]) && SpecOf(PingKey, [r, s, t]) == PingSpec(a)
  {
    LatestOfThree(r, s, t, RateIn, 0.0);
    LatestOfThree(r, s, t, SizeIn, 12);
    LatestOfThree(r, s, t, TriggerIn, Listener);
  }

  lemma PubGroupReads(a: PubArgs)
    requires Terminating(a.rateHz)
    ensures var us := PubUnits(a);
      UnitsFit(PubKey, us) && SpecOf(PubKey, us) == PubSpec(a)
  {
    RateUnit(a.rateHz);
    SizeReads(a.sizeBytes);
    BurstReads(a.burst);
    PubUnitsMean(Rate(PrintReal(a.rateHz)), SizeUnit(a.sizeBytes), BurstUnit(a.burst), a);
  }

  lemma PingGroupReads(a: PingArgs)
    requires Terminating(a.rateHz)
    ensures var us := PingUnits(a);
      UnitsFit(PingKey, us) && SpecOf(PingKey, us) == PingSpec(a)
  {
    RateUnit(a.rateHz);
    SizeReads(a.sizeBytes);
    TriggerReads(a.trigger);
    PingUnitsMean(Rate(PrintReal(a.rateHz)), SizeUnit(a.sizeBytes), TriggerWord(a.trigger), a);
  }

  lemma TriggerGroupReads(t: Trigger)
    ensures var us := [TriggerWord(t)];
      && UnitsFit(SubKey, us) && SpecOf(SubKey, us) == SubSpec(t)
      && UnitsFit(PongKey, us) && SpecOf(PongKey, us) == PongSpec(t)
  {
    TriggerReads(t);
    LatestOne(TriggerWord(t), TriggerIn, Listener);
  }

  lemma ModeWordsLexed()
    ensures !Lex("pub").dash && Lex("pub").mode == PubKey && !Lex("sub").dash && Lex("sub").mode == SubKey
    ensures !Lex("ping").dash && Lex("ping").mode == PingKey && !Lex("pong").dash && Lex("pong").mode == PongKey
  {
    ModeWords();
    assert "pub"[0] == 'p' && "sub"[0] == 's' && "ping"[0] == 'p' && "pong"[0] == 'p';
  }

  lemma ModeGroupReads(m: ModeSpec)
    requires AchievableMode(m)
    ensures var g := ModeGroup(m); g.Mode? && WellFormed(g) && SpecOf(g.key.mode, g.units) == m
  {
    ModeWordsLexed();
    match m.kind
    case KPub => PubGroupReads(m.pub);
    case KSub => TriggerGroupReads(m.sub.trigger);
    case KPing => PingGroupReads(m.ping);
    case KPong => TriggerGroupReads(m.pong.trigger);
  }

  lemma ModeTurns(m: ModeSpec, cfg: Settings)
    requires AchievableMode(m)
    ensures Turns([ModeGroup(m)], cfg, AddMode(cfg, m))
  {
    ModeGroupReads(m);
    DescribesOne(ModeGroup(m), cfg);
  }

  lemma OneMoreMode(g: Group, gs: seq<Group>, m: ModeSpec, ms: seq<ModeSpec>, cfg: Settings)
    requires Turns([g], cfg, AddMode(cfg, m)) && Turns(gs, AddMode(cfg, m), AddModes(AddMode(cfg, m), ms))
    ensures Turns([g] + gs, cfg, AddModes(cfg, [m] + ms))
  {
    assert cfg.modes + [m] + ms == cfg.modes + ([m] + ms);
    TurnsConcat([g], gs, cfg, AddMode(cfg, m), AddModes(AddMode(cfg, m), ms));
  }

  function AddModes(cfg: Settings, ms: seq<ModeSpec>): Settings { cfg.(modes := cfg.modes + ms) }

  lemma NoModes(cfg: Settings)
    ensures Turns([], cfg, AddModes(cfg, []))
  {
    DescribesNone(cfg);
    assert cfg.modes + [] == cfg.modes;
  }

  lemma {:induction false} ModesTurn(ms: seq<ModeSpec>, cfg: Settings)
    requires forall i :: 0 <= i < |ms| ==> AchievableMode(ms[i])
    ensures Turns(ModeGroups(ms), cfg, AddModes(cfg, ms))
  {
    if ms == [] {
      NoModes(cfg);
    } else {
      ModeTurns(ms[0], cfg);
      ModesTurn(ms[1..], AddMode(cfg, ms[0]));
      OneMoreMode(ModeGroup(ms[0]), ModeGroups(ms[1..]), ms[0], ms[1..], cfg);
      assert ms == [ms[0]] + ms[1..];
    }
  }

  // ---------------------------------------------------------------- from groups to words and back

  /** Words the parser's callers do not take for themselves: they hand over nothing from --ros-args on. */
  predicate Harmless(w: string, topic: string) {
    w == topic || w == "" || w[0] != '-' || !OptKeyOf(w).UnknownOpt?
  }

  /** A token as the parser makes it from a harmless word. */
  function Written(topic: string): Token -> bool {
    (t: Token) => t == Lex(t.text) && Harmless(t.text, topic)
  }

  predicate TokensAll(ts: seq<Token>, p: Token -> bool) {
    forall i :: 0 <= i < |ts| ==> p(ts[i])
  }

  predicate GroupsAll(gs: seq<Group>, p: Token -> bool) {
    forall i :: 0 <= i < |gs| ==> TokensAll(GroupTokens(gs[i]), p)
  }

  lemma WordWritten(w: string, topic: string)
    requires Harmless(w, topic)
    ensures Written(topic)(Lex(w))
  {
  }

  lemma PairWritten(w: Token, v: Token, p: Token -> bool)
    requires p(w) && p(v)
    ensures TokensAll(UnitTokens(Pair(w, v)), p) && GroupsAll([Valued(w, v)], p)
  {
  }

  lemma LoneWritten(t: Token, p: Token -> bool)
    requires p(t)
    ensures TokensAll(UnitTokens(Lone(t)), p) && GroupsAll([Flag(t)], p)
  {
  }

  lemma UnitsAfterWritten(t: Token, us: seq<Unit>, p: Token -> bool)
    requires p(t) && TokensAll(UnitsTokens(us), p)
    ensures TokensAll(GroupTokens(Mode(t, us)), p)
  {
  }

  lemma {:induction false} UnitsWritten(us: seq<Unit>, p: Token -> bool)
    requires forall i :: 0 <= i < |us| ==> TokensAll(UnitTokens(us[i]), p)
    ensures TokensAll(UnitsTokens(us), p)
  {
    if us != [] {
      UnitsWritten(us[1..], p);
    }
  }

  lemma {:induction false} FlattenWritten(gs: seq<Group>, p: Token -> bool)
    requires GroupsAll(gs, p)
    ensures TokensAll(Flatten(gs), p)
  {
    if gs != [] {
      FlattenWritten(gs[1..], p);
    }
  }

  lemma SettingWritten(option: string, value: string, topic: string)
    requires !OptKeyOf(option).UnknownOpt? && Harmless(value, topic)
    ensures GroupsAll(Setting(option, value), Written(topic))
  {
    WordWritten(option, topic);
    WordWritten(value, topic);
    PairWritten(Lex(option), Lex(value), Written(topic));
  }

  lemma SwitchWritten(on: bool, flag: string, topic: string)
    requires !OptKeyOf(flag).UnknownOpt?
    ensures GroupsAll(Switch(on, flag), Written(topic))
  {
    WordWritten(flag, topic);
    LoneWritten(Lex(flag), Written(topic));
  }

  lemma WrittenConcat(a: seq<Group>, b: seq<Group>, p: Token -> bool)
    requires GroupsAll(a, p) && GroupsAll(b, p)
    ensures GroupsAll(a + b, p)
  {
  }

  lemma DigitHarmless(w: string, topic: string)
    requires w != "" && IsDigit(w[0])
    ensures Harmless(w, topic)
  {
  }

  lemma KeepHarmless(mode: Keep, depth: U32, topic: string)
    ensures Harmless(KeepText(mode, depth), topic)
  {
    assert "all"[0] == 'a';
    DigitHarmless(CountText(depth), topic);
  }

  lemma ExecutorHarmless(e: Executor, topic: string)
    ensures Harmless(ExecutorText(e), topic)
  {
    assert "single"[0] == 's' && "static"[0] == 's' && "multi"[0] == 'm';
  }

  lemma ValuesHarmless(cfg: Settings)
    requires Achievable(cfg)
    ensures Harmless(KeepText(cfg.keepMode, cfg.keepDepth), cfg.topic)
    ensures Harmless(PrintReal(cfg.durationS), cfg.topic) && Harmless(ExecutorText(cfg.executor), cfg.topic)
    ensures cfg.domainId >= 0 ==> Harmless(Digits(cfg.domainId), cfg.topic)
  {
    RateRead(cfg.durationS);
    DigitHarmless(PrintReal(cfg.durationS), cfg.topic);
    KeepHarmless(cfg.keepMode, cfg.keepDepth, cfg.topic);
    ExecutorHarmless(cfg.executor, cfg.topic);
    if cfg.domainId >= 0 {
      DigitHarmless(Digits(cfg.domainId), cfg.topic);
    }
  }

  lemma OptionsWritten(cfg: Settings)
    requires Achievable(cfg)
    ensures GroupsAll(OptionGroups(cfg), Written(cfg.topic))
  {
    ValuesHarmless(cfg);
    OptionWords();
    var g1, g2 := Setting("-t", cfg.topic), Switch(cfg.bestEffort, "-u");
    var g3, g4 := Setting("-k", KeepText(cfg.keepMode, cfg.keepDepth)), Setting("-D", PrintReal(cfg.durationS));
    SettingWritten("-t", cfg.topic, cfg.topic);
    SwitchWritten(cfg.bestEffort, "-u", cfg.topic);
    SettingWritten("-k", KeepText(cfg.keepMode, cfg.keepDepth), cfg.topic);
    SettingWritten("-D", PrintReal(cfg.durationS), cfg.topic);
    LastOptionsWritten(cfg);
    WrittenConcat(g4, LastOptions(cfg), Written(cfg.topic));
    WrittenConcat(g3, g4 + LastOptions(cfg), Written(cfg.topic));
    WrittenConcat(g2, g3 + (g4 + LastOptions(cfg)), Written(cfg.topic));
    WrittenConcat(g1, g2 + (g3 + (g4 + LastOptions(cfg))), Written(cfg.topic));
  }

  lemma LastOptionsWritten(cfg: Settings)
    requires Achievable(cfg)
    ensures GroupsAll(LastOptions(cfg), Written(cfg.topic))
  {
    ValuesHarmless(cfg);
    OptionWords();
    var g5, g6 := Switch(cfg.intraProcess, "-L"), Switch(cfg.reportLatency, "-l");
    var g7 := DomainSetting(cfg.domainId);
    var g8 := Setting("-E", ExecutorText(cfg.executor));
    SwitchWritten(cfg.intraProcess, "-L", cfg.topic);
    SwitchWritten(cfg.reportLatency, "-l", cfg.topic);
    if cfg.domainId >= 0 {
      SettingWritten("-i", Digits(cfg.domainId), cfg.topic);
    }
    SettingWritten("-E", ExecutorText(cfg.executor), cfg.topic);
    WrittenConcat(g7, g8, Written(cfg.topic));
    WrittenConcat(g6, g7 + g8, Written(cfg.topic));
    WrittenConcat(g5, g6 + (g7 + g8), Written(cfg.topic));
  }

  lemma RateWritten(r: real, topic: string)
    requires Terminating(r)
    ensures TokensAll(UnitTokens(Rate(PrintReal(r))), Written(topic))
  {
    RateRead(r);
    WordWritten(PrintReal(r), topic);
    LoneWritten(Lex(PrintReal(r)), Written(topic));
  }

  lemma SizeWritten(n: U32, topic: string)
    ensures TokensAll(UnitTokens(SizeUnit(n)), Written(topic))
  {
    assert "size"[0] == 's' && IsDigit(Digits(n)[0]);
    WordWritten("size", topic);
    WordWritten(Digits(n), topic);
    PairWritten(Lex("size"), Lex(Digits(n)), Written(topic));
  }

  lemma BurstWritten(n: U32, topic: string)
    ensures TokensAll(UnitTokens(BurstUnit(n)), Written(topic))
  {
    assert "burst"[0] == 'b' && IsDigit(CountText(n)[0]);
    WordWritten("burst", topic);
    WordWritten(CountText(n), topic);
    PairWritten(Lex("burst"), Lex(CountText(n)), Written(topic));
  }

  lemma TriggerWritten(t: Trigger, topic: string)
    ensures TokensAll(UnitTokens(TriggerWord(t)), Written(topic))
  {
    TriggerWords(t);
    WordWritten(TriggerText(t), topic);
    LoneWritten(Lex(TriggerText(t)), Written(topic));
  }

  lemma ModeWritten(t: Token, us: seq<Unit>, p: Token -> bool)
    requires p(t) && forall i :: 0 <= i < |us| ==> TokensAll(UnitTokens(us[i]), p)
    ensures TokensAll(GroupTokens(Mode(t, us)), p)
  {
    UnitsWritten(us, p);
    UnitsAfterWritten(t, us, p);
  }

  lemma ThreeUnitsWritten(t: Token, a: Unit, b: Unit, c: Unit, p: Token -> bool)
    requires p(t) && TokensAll(UnitTokens(a), p) && TokensAll(UnitTokens(b), p) && TokensAll(UnitTokens(c), p)
    ensures TokensAll(GroupTokens(Mode(t, [a, b, c])), p)
  {
    ModeWritten(t, [a, b, c], p);
  }

  lemma PubWritten(a: PubArgs, topic: string)
    requires Terminating(a.rateHz)
    ensures TokensAll(GroupTokens(Mode(Lex("pub"), PubUnits(a))), Written(topic))
  {
    assert "pub"[0] == 'p';
    RateWritten(a.rateHz, topic);
    SizeWritten(a.sizeBytes, topic);
    BurstWritten(a.burst, topic);
    WordWritten("pub", topic);
    ThreeUnitsWritten(Lex("pub"), Rate(PrintReal(a.rateHz)), SizeUnit(a.sizeBytes), BurstUnit(a.burst), Written(topic));
  }

  lemma PingWritten(a: PingArgs, topic: string)
    requires Terminating(a.rateHz)
    ensures TokensAll(GroupTokens(Mode(Lex("ping"), PingUnits(a))), Written(topic))
  {
    assert "ping"[0] == 'p';
    RateWritten(a.rateHz, topic);
    SizeWritten(a.sizeBytes, topic);
    TriggerWritten(a.trigger, topic);
    WordWritten("ping", topic);
    ThreeUnitsWritten(Lex("ping"), Rate(PrintReal(a.rateHz)), SizeUnit(a.sizeBytes), TriggerWord(a.trigger),
                      Written(topic));
  }

  lemma TriggeredWritten(t: Trigger, topic: string)
    ensures TokensAll(GroupTokens(Mode(Lex("sub"), [TriggerWord(t)])), Written(topic))
    ensures TokensAll(GroupTokens(Mode(Lex("pong"), [TriggerWord(t)])), Written(topic))
  {
    assert "sub"[0] == 's' && "pong"[0] == 'p';
    TriggerWritten(t, topic);
    WordWritten("sub", topic);
    ModeWritten(Lex("sub"), [TriggerWord(t)], Written(topic));
    WordWritten("pong", topic);
    ModeWritten(Lex("pong"), [TriggerWord(t)], Written(topic));
  }

  lemma ModeGroupWritten(m: ModeSpec, topic: string)
    requires AchievableMode(m)
    ensures TokensAll(GroupTokens(ModeGroup(m)), Written(topic))
  {
    match m.kind
    case KPub => PubWritten(m.pub, topic);
    case KSub => TriggeredWritten(m.sub.trigger, topic);
    case KPing => PingWritten(m.ping, topic);
    case KPong => TriggeredWritten(m.pong.trigger, topic);
  }

  lemma OneMoreWritten(g: Group, gs: seq<Group>, p: Token -> bool)
    requires TokensAll(GroupTokens(g), p) && GroupsAll(gs, p)
    ensures GroupsAll([g] + gs, p)
  {
  }

  lemma {:induction false} ModesWritten(ms: seq<ModeSpec>, topic: string)
    requires forall i :: 0 <= i < |ms| ==> AchievableMode(ms[i])
    ensures GroupsAll(ModeGroups(ms), Written(topic))
  {
    if ms != [] {
      ModeGroupWritten(ms[0], topic);
      ModesWritten(ms[1..], topic);
      OneMoreWritten(ModeGroup(ms[0]), ModeGroups(ms[1..]), Written(topic));
    }
  }

  lemma {:induction false} MapInverse<A, B>(xs: seq<A>, f: A -> B, g: B -> A)
    requires forall i :: 0 <= i < |xs| ==> g(f(xs[i])) == xs[i]
    ensures Map(Map(xs, f), g) == xs
    ensures forall i :: 0 <= i < |xs| ==> Map(xs, f)[i] == f(xs[i])
  {
    if xs != [] {
      var n := |xs| - 1;
      MapInverse(xs[..n], f, g);
      MapLast(Map(xs[..n], f), f(xs[n]), g);
    }
  }

  lemma ReadBack(ts: seq<Token>, topic: string)
    requires TokensAll(ts, Written(topic))
    ensures LexAll(Map(ts, Text)) == ts
    ensures topic != ROS_ARGS ==> ROS_ARGS !in Map(ts, Text)
  {
    assert forall i :: 0 <= i < |ts| ==> Written(topic)(ts[i]) && Lex(Text(ts[i])) == ts[i];
    MapInverse(ts, Text, Lex);
    RosArgs();
  }

  lemma RosArgs()
    ensures OptKeyOf(ROS_ARGS) == UnknownOpt && ROS_ARGS[0] == '-'
  {
    assert "--ros-args"[1] == '-' && "--ros-args"[2] == 'r' && "--help"[2] == 'h' && "--version"[2] == 'v';
  }

  lemma PrintedGroupsWritten(cfg: Settings)
    requires Achievable(cfg)
    ensures LexAll(Print(cfg)) == Flatten(OptionGroups(cfg) + ModeGroups(cfg.modes))
    ensures cfg.topic != ROS_ARGS ==> ROS_ARGS !in Print(cfg)
  {
    OptionsWritten(cfg);
    ModesWritten(cfg.modes, cfg.topic);
    WrittenConcat(OptionGroups(cfg), ModeGroups(cfg.modes), Written(cfg.topic));
    FlattenWritten(OptionGroups(cfg) + ModeGroups(cfg.modes), Written(cfg.topic));
    ReadBack(Flatten(OptionGroups(cfg) + ModeGroups(cfg.modes)), cfg.topic);
  }

  lemma PrintedGroupsTurn(cfg: Settings)
    requires Achievable(cfg)
    ensures Turns(OptionGroups(cfg) + ModeGroups(cfg.modes), DEFAULT_SETTINGS, cfg)
  {
    OptionsTurn(cfg);
    ModesTurn(cfg.modes, cfg.(modes := []));
    OptionsThenModes(OptionGroups(cfg), ModeGroups(cfg.modes), cfg);
  }

  lemma OptionsThenModes(options: seq<Group>, modes: seq<Group>, cfg: Settings)
    requires Turns(options, DEFAULT_SETTINGS, cfg.(modes := []))
    requires Turns(modes, cfg.(modes := []), AddModes(cfg.(modes := []), cfg.modes))
    ensures Turns(options + modes, DEFAULT_SETTINGS, cfg)
  {
    assert [] + cfg.modes == cfg.modes;
    TurnsConcat(options, modes, DEFAULT_SETTINGS, cfg.(modes := []), cfg);
  }

  lemma TurnsMeaning(gs: seq<Group>, cfg: Settings, toks: seq<string>)
    requires Turns(gs, DEFAULT_SETTINGS, cfg) && cfg.modes != [] && LexAll(toks) == Flatten(gs)
    ensures Parse(toks) == ParseResult(Good, cfg, NoComplaint)
  {
    assert [] + ModesOf(gs) == ModesOf(gs);
    SentenceMeaning(gs, toks);
  }

  /** Round trip: parsing a printed command line gives the settings back. Unless the topic is --ros-args
      itself, nothing of it is withheld from the parser. */
  lemma RoundTrip(cfg: Settings)
    requires Achievable(cfg)
    ensures Parse(Print(cfg)) == ParseResult(Good, cfg, NoComplaint)
    ensures cfg.topic != ROS_ARGS ==> ROS_ARGS !in Print(cfg)
  {
    PrintedGroupsWritten(cfg);
    PrintedGroupsTurn(cfg);
    TurnsMeaning(OptionGroups(cfg) + ModeGroups(cfg.modes), cfg, Print(cfg));
  }
}
