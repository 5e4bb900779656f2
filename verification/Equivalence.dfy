/** Command lines that mean the same: how options and modes are mixed does not matter, an option given
    again replaces the earlier one, and sanity is ping 1Hz. */
module Equivalence {
  import opened Args
  import opened Config
  import opened Decimals
  import opened Grammar
  import opened Numbers

  // ---------------------------------------------------------------- interleaving

  /** The options of a command line, in order. */
  function OptionsOf(gs: seq<Group>): seq<Group> {
    if gs == [] then [] else (if gs[0].Mode? then [] else [gs[0]]) + OptionsOf(gs[1..])
  }

  /** The modes of a command line with their sub-arguments, in order. */
  function ModeGroupsOf(gs: seq<Group>): seq<Group> {
    if gs == [] then [] else (if gs[0].Mode? then [gs[0]] else []) + ModeGroupsOf(gs[1..])
  }

  lemma {:induction false} LatestOption<T>(gs: seq<Group>, pick: Group -> Option<T>, default: T)
    requires forall g: Group :: g.Mode? ==> pick(g) == None
    ensures Latest(gs, pick, default) == Latest(OptionsOf(gs), pick, default)
  {
    if gs != [] {
      var d := match pick(gs[0]) case Some(v) => v case None => default;
      LatestOption(gs[1..], pick, d);
      if !gs[0].Mode? {
        LatestCons(gs[0], OptionsOf(gs[1..]), pick, default);
        LatestOne(gs[0], pick, default);
      } else {
        assert [] + OptionsOf(gs[1..]) == OptionsOf(gs[1..]);
      }
    }
  }

  lemma {:induction false} ModesAlone(gs: seq<Group>)
    ensures ModesOf(gs) == ModesOf(ModeGroupsOf(gs))
  {
    if gs != [] {
      ModesAlone(gs[1..]);
      if gs[0].Mode? {
        assert ModeGroupsOf(gs)[1..] == ModeGroupsOf(gs[1..]);
      } else {
        assert ModeGroupsOf(gs) == ModeGroupsOf(gs[1..]);
      }
    }
  }

  lemma OptionsDecide(gs: seq<Group>, cfg: Settings)
    ensures Describes(gs, cfg) == Describes(OptionsOf(gs), cfg).(modes := cfg.modes + ModesOf(ModeGroupsOf(gs)))
  {
    LatestOption(gs, KeepIn, (cfg.keepMode, cfg.keepDepth));
    LatestOption(gs, TopicIn, cfg.topic);
    LatestOption(gs, FlagIn(BestEffortOpt), cfg.bestEffort);
    LatestOption(gs, DurationIn, cfg.durationS);
    LatestOption(gs, FlagIn(IntraOpt), cfg.intraProcess);
    LatestOption(gs, FlagIn(LatencyOpt), cfg.reportLatency);
    LatestOption(gs, DomainIn, cfg.domainId);
    LatestOption(gs, ExecutorIn, cfg.executor);
    ModesAlone(gs);
  }

  /** Two command lines with the same options in the same order and the same modes in the same order have
      the same parse, however the two are interleaved; if one is accepted, so is the other. */
  lemma InterleavingIrrelevant(gs1: seq<Group>, toks1: seq<string>, gs2: seq<Group>, toks2: seq<string>)
    requires Sentence(gs1, toks1) && AllWellFormed(gs2) && Flatten(gs2) == LexAll(toks2)
    requires OptionsOf(gs1) == OptionsOf(gs2) && ModeGroupsOf(gs1) == ModeGroupsOf(gs2)
    ensures Sentence(gs2, toks2) && Parse(toks1) == Parse(toks2)
  {
    OptionsDecide(gs1, DEFAULT_SETTINGS);
    OptionsDecide(gs2, DEFAULT_SETTINGS);
    ModesAlone(gs1);
    ModesAlone(gs2);
    SentenceMeaning(gs1, toks1);
    SentenceMeaning(gs2, toks2);
  }

  // ---------------------------------------------------------------- repeated options

  predicate SameOption(g: Group, h: Group) {
    !g.Mode? && !h.Mode? && g.Flag? == h.Flag? && g.key.opt == h.key.opt
  }

  lemma {:induction false} LatestConcat<A, T>(a: seq<A>, b: seq<A>, pick: A -> Option<T>, default: T)
    ensures Latest(a + b, pick, default) == Latest(b, pick, Latest(a, pick, default))
  {
    if a == [] {
      assert a + b == b;
    } else {
      assert (a + b)[1..] == a[1..] + b;
      LatestConcat(a[1..], b, pick, match pick(a[0]) case Some(v) => v case None => default);
    }
  }

  lemma LatestOverridden<T>(a: seq<Group>, g: Group, b: seq<Group>, pick: Group -> Option<T>, default: T)
    requires pick(g).Some? ==> exists i :: 0 <= i < |b| && pick(b[i]).Some?
    ensures Latest(a + [g] + b, pick, default) == Latest(a + b, pick, default)
  {
    LatestConcat(a + [g], b, pick, default);
    LatestConcat(a, [g], pick, default);
    LatestConcat(a, b, pick, default);
    var d := Latest(a, pick, default);
    LatestOne(g, pick, d);
    if i :| 0 <= i < |b| && pick(b[i]).Some? {
      LatestIgnoresDefault(b, i, pick, d, Latest([g], pick, d));
    }
  }

  lemma {:induction false} LatestIgnoresDefault<T>(b: seq<Group>, i: nat, pick: Group -> Option<T>, d1: T, d2: T)
    requires i < |b| && pick(b[i]).Some?
    ensures Latest(b, pick, d1) == Latest(b, pick, d2)
  {
    if pick(b[0]).None? {
      LatestIgnoresDefault(b[1..], i - 1, pick, d1, d2);
    }
  }

  lemma ModesOfCons(g: Group, gs: seq<Group>)
    ensures ModesOf([g] + gs) == (if g.Mode? then [SpecOf(g.key.mode, g.units)] else []) + ModesOf(gs)
  {
    assert ([g] + gs)[1..] == gs;
  }

  lemma {:induction false} ModesOfConcat(a: seq<Group>, b: seq<Group>)
    ensures ModesOf(a + b) == ModesOf(a) + ModesOf(b)
  {
    if a == [] {
      assert a + b == b;
    } else {
      var g, more := a[0], a[1..];
      assert a == [g] + more && a + b == [g] + (more + b);
      ModesOfCons(g, more);
      ModesOfCons(g, more + b);
      ModesOfConcat(more, b);
      Regroup(if g.Mode? then [SpecOf(g.key.mode, g.units)] else [], ModesOf(more), ModesOf(b));
    }
  }

  lemma ModesWithout(a: seq<Group>, g: Group, b: seq<Group>)
    requires !g.Mode?
    ensures ModesOf(a + [g] + b) == ModesOf(a + b)
  {
    ModesOfConcat(a + [g], b);
    ModesOfConcat(a, [g]);
    ModesOfConcat(a, b);
    assert [g][1..] == [];
    assert ModesOf(a) + [] == ModesOf(a);
  }

  lemma FlagsWithoutOverridden(a: seq<Group>, g: Group, b: seq<Group>, i: nat, key: OptKey, default: bool)
    requires i < |b| && SameOption(g, b[i]) && WellFormed(g) && WellFormed(b[i])
    ensures Latest(a + [g] + b, FlagIn(key), default) == Latest(a + b, FlagIn(key), default)
  {
    LatestOverridden(a, g, b, FlagIn(key), default);
  }

  lemma WithoutOverridden(a: seq<Group>, g: Group, b: seq<Group>, i: nat, cfg: Settings)
    requires i < |b| && SameOption(g, b[i]) && WellFormed(g) && WellFormed(b[i])
    ensures Describes(a + [g] + b, cfg) == Describes(a + b, cfg)
  {
    LatestOverridden(a, g, b, KeepIn, (cfg.keepMode, cfg.keepDepth));
    LatestOverridden(a, g, b, TopicIn, cfg.topic);
    LatestOverridden(a, g, b, DurationIn, cfg.durationS);
    LatestOverridden(a, g, b, DomainIn, cfg.domainId);
    LatestOverridden(a, g, b, ExecutorIn, cfg.executor);
    FlagsWithoutOverridden(a, g, b, i, BestEffortOpt, cfg.bestEffort);
    FlagsWithoutOverridden(a, g, b, i, IntraOpt, cfg.intraProcess);
    FlagsWithoutOverridden(a, g, b, i, LatencyOpt, cfg.reportLatency);
    ModesWithout(a, g, b);
  }

  lemma StillWellFormed(a: seq<Group>, g: Group, b: seq<Group>)
    requires AllWellFormed(a + [g] + b)
    ensures AllWellFormed(a + b) && WellFormed(g) && AllWellFormed(b)
  {
    var gs := a + [g] + b;
    assert gs[|a|] == g;
    forall j | 0 <= j < |a + b| ensures WellFormed((a + b)[j]) {
      assert (a + b)[j] == gs[if j < |a| then j else j + 1];
    }
    forall j | 0 <= j < |b| ensures WellFormed(b[j]) {
      assert b[j] == gs[|a| + 1 + j];
    }
  }

  /** An option that is given again later can be left out. */
  lemma OverriddenOption(a: seq<Group>, g: Group, b: seq<Group>, i: nat, toks1: seq<string>, toks2: seq<string>)
    requires i < |b| && SameOption(g, b[i])
    requires Sentence(a + [g] + b, toks1) && Flatten(a + b) == LexAll(toks2)
    ensures Parse(toks1) == Parse(toks2)
  {
    StillWellFormed(a, g, b);
    ModesWithout(a, g, b);
    WithoutOverridden(a, g, b, i, DEFAULT_SETTINGS);
    SentenceMeaning(a + [g] + b, toks1);
    SentenceMeaning(a + b, toks2);
  }

  // ---------------------------------------------------------------- sanity

  lemma DigitOne()
    ensures AllDigits("1") && ValueOf("1") == 1
  {
    assert "1"[0] == '1';
    assert ValueOf("1") == 10 * ValueOf("1"[..0]) + 1;
  }

  lemma HertzUnit()
    ensures Exponent("Hz") == (0, 0) && "Hz" != "" && !IsDigit("Hz"[0]) && "Hz"[0] != '.'
  {
    assert "Hz"[0] == 'H';
  }

  lemma OneHertz()
    ensures Frequency("1Hz") == Some(1.0) && IsDigit("1Hz"[0])
  {
    assert "1Hz" == "1" + "Hz" && "1Hz"[0] == '1';
    DigitOne();
    HertzUnit();
    ReadScaled("1", "Hz", 0, 0);
    assert Scaled(1, 0) == 1.0 && "Hz"[0..] == "Hz";
    FrequencyMeans("1Hz", 1.0, "Hz");
  }

  lemma SanityWord()
    ensures ModeKeyOf("sanity") == SanityKey && "sanity"[0] != '-'
  {
    assert "sanity"[0] == 's' && "sanity"[1] == 'a';
  }

  lemma PingWord()
    ensures ModeKeyOf("ping") == PingKey && "ping"[0] != '-'
  {
    assert "ping"[0] == 'p' && "ping"[1] == 'i';
  }

  /** A word that starts with a digit is none of the parser's keywords. */
  lemma NumberWord(w: string)
    requires w != "" && IsDigit(w[0])
    ensures ModeKeyOf(w) == NoMode && WordOf(w) == OtherWord && TriggerOf(w) == None && w[0] != '-'
  {
  }

  lemma ParseAs(before: seq<string>, words: seq<string>, after: seq<string>)
    ensures Parse(before + (words + after))
         == ParseRest(LexAll(before) + (LexAll(words) + LexAll(after)), DEFAULT_SETTINGS)
  {
    MapConcat(before, words + after, Lex);
    MapConcat(words, after, Lex);
  }

  lemma OneHertzPing(p: Token, hz: Token, tail: seq<Token>, cfg: Settings)
    requires Ends(tail) && !p.dash && p.mode.PingKey?
    requires PingUnit(Lone(hz)) && hz.trigger.None? && hz.frequency == Some(1.0)
    ensures StepOf([p] + [hz] + tail, cfg) == Next(2, AddMode(cfg, SANITY))
  {
    var u := Lone(hz);
    assert UnitsTokens([u]) == [hz] + UnitsTokens([]);
    ModeGroupStep(p, [u], tail, cfg);
    LatestOne(u, RateIn, 0.0);
    LatestOne(u, SizeIn, 12);
    LatestOne(u, TriggerIn, Listener);
  }

  lemma SameOutcome(gs: seq<Group>, s: Token, p: Token, hz: Token, tail: seq<Token>)
    requires AllWellFormed(gs) && !s.dash && s.mode.SanityKey? && !p.dash && p.mode.PingKey?
    requires PingUnit(Lone(hz)) && hz.trigger.None? && hz.frequency == Some(1.0)
    ensures var sanity := ParseRest(Flatten(gs) + ([s] + tail), DEFAULT_SETTINGS);
      if Ends(tail) then sanity == ParseRest(Flatten(gs) + ([p] + [hz] + tail), DEFAULT_SETTINGS)
      else sanity.status.Error? && sanity.error == Unexpected(tail[0].text)
  {
    var cfg := Describes(gs, DEFAULT_SETTINGS);
    FollowGroups(gs, [s] + tail, DEFAULT_SETTINGS);
    FollowGroups(gs, [p] + [hz] + tail, DEFAULT_SETTINGS);
    assert ([s] + tail)[1..] == tail && ([p] + [hz] + tail)[2..] == tail;
    if Ends(tail) {
      OneHertzPing(p, hz, tail, cfg);
    }
  }

  lemma SameOutcomeOfWords(before: seq<string>, gs: seq<Group>, s: string, p: string, hz: string, after: seq<string>)
    requires AllWellFormed(gs) && LexAll(before) == Flatten(gs)
    requires s != "" && s[0] != '-' && ModeKeyOf(s) == SanityKey
    requires p != "" && p[0] != '-' && ModeKeyOf(p) == PingKey
    requires hz != "" && IsDigit(hz[0]) && Frequency(hz) == Some(1.0)
    ensures var sanity := Parse(before + ([s] + after));
      if Ends(LexAll(after)) then sanity == Parse(before + ([p] + [hz] + after))
      else sanity.status.Error? && sanity.error == Unexpected(LexAll(after)[0].text)
  {
    ParseAs(before, [s], after);
    ParseAs(before, [p] + [hz], after);
    MapConcat([p], [hz], Lex);
    MapOne(s, Lex);
    MapOne(p, Lex);
    MapOne(hz, Lex);
    NumberWord(hz);
    SameOutcome(gs, Lex(s), Lex(p), Lex(hz), LexAll(after));
  }

  /** Where a mode may stand, sanity does the same as ping 1Hz if the line ends there or goes on with an
      option or a mode. Otherwise the line with sanity is rejected at the next word: sanity takes no
      sub-arguments, ping does. */
  lemma SanityIsPing(before: seq<string>, gs: seq<Group>, after: seq<string>)
    requires AllWellFormed(gs) && LexAll(before) == Flatten(gs)
    ensures var sanity := Parse(before + (["sanity"] + after));
      if Ends(LexAll(after)) then sanity == Parse(before + (["ping"] + ["1Hz"] + after))
      else sanity.status.Error? && sanity.error == Unexpected(LexAll(after)[0].text)
  {
    SanityWord();
    PingWord();
    OneHertz();
    SameOutcomeOfWords(before, gs, "sanity", "ping", "1Hz", after);
  }
}
