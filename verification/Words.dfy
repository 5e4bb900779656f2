/** Which words the command line knows, and what a line with nothing but a mode means. */
module Words {
  import opened Args
  import opened Config
  import opened Grammar
  import opened Numbers

  /** The options, by their names. */
  lemma OptionNames(t: string)
    ensures OptKeyOf(t).HelpOpt? <==> t == "-h" || t == "--help"
    ensures OptKeyOf(t).VersionOpt? <==> t == "--version"
    ensures OptKeyOf(t).BestEffortOpt? <==> t == "-u"
    ensures OptKeyOf(t).IntraOpt? <==> t == "-L"
    ensures OptKeyOf(t).LatencyOpt? <==> t == "-l"
    ensures OptKeyOf(t).KeepOpt? <==> t == "-k"
    ensures OptKeyOf(t).DurationOpt? <==> t == "-D"
    ensures OptKeyOf(t).DomainOpt? <==> t == "-i"
    ensures OptKeyOf(t).TopicOpt? <==> t == "-t"
    ensures OptKeyOf(t).ExecutorOpt? <==> t == "-E"
  {
  }

  /** The mode keywords. */
  lemma ModeNames(t: string)
    ensures ModeKeyOf(t).PubKey? <==> t == "pub"
    ensures ModeKeyOf(t).SubKey? <==> t == "sub"
    ensures ModeKeyOf(t).PingKey? <==> t == "ping"
    ensures ModeKeyOf(t).PongKey? <==> t == "pong"
    ensures ModeKeyOf(t).SanityKey? <==> t == "sanity"
    ensures ModeKeyOf(t).HelpKey? <==> t == "help"
  {
  }

  /** The words that stand for a value. */
  lemma ValueNames(t: string)
    ensures WordOf(t).SizeWord? <==> t == "size"
    ensures WordOf(t).BurstWord? <==> t == "burst"
    ensures TriggerOf(t) == Some(Listener) <==> t == "listener"
    ensures TriggerOf(t) == Some(WaitSet) <==> t == "waitset"
    ensures ExecutorOf(t) == Some(Single) <==> t == "single"
    ensures ExecutorOf(t) == Some(Multi) <==> t == "multi"
    ensures ExecutorOf(t) == Some(Static) <==> t == "static"
    ensures KeepOf(t) == Some((KeepAll, 0)) <==> t == "all"
  {
  }

  /** The history depth: "all", or a count kept in 32 bits. */
  lemma KeepNames(t: string)
    requires t != "all"
    ensures KeepOf(t).Some? <==> StrictInt64(t).Some? && StrictInt64(t).value >= 1
    ensures KeepOf(t).Some? ==> KeepOf(t).value == (KeepLast, StrictInt64(t).value % 0x1_0000_0000)
  {
  }

  /** A domain is a strict integer from 0 to 232. */
  lemma DomainNames(t: string)
    ensures Domain(t).Some? <==> StrictInt64(t).Some? && 0 <= StrictInt64(t).value <= 232
    ensures Domain(t).Some? ==> Domain(t) == StrictInt64(t)
  {
  }

  lemma LexedKeys(t: string)
    ensures Lex(t).text == t && Lex(t).opt == OptKeyOf(t) && Lex(t).mode == ModeKeyOf(t)
    ensures Lex(t).dash <==> t != "" && t[0] == '-'
  {
  }

  /** A word asks for help when it is -h, --help or help, and for the version when it is --version. */
  lemma AskingWords(t: string)
    ensures AsksForHelp(Lex(t)) <==> t == "-h" || t == "--help" || t == "help"
    ensures AsksForVersion(Lex(t)) <==> t == "--version"
  {
    LexedKeys(t);
    OptionNames(t);
    ModeNames(t);
  }

  /** The word ends a mode's sub-arguments: a mode keyword, or anything with a dash in front. */
  lemma BoundaryWords(t: string)
    ensures Lex(t).Boundary() <==>
      t in {"pub", "sub", "ping", "pong", "sanity", "help"} || (t != "" && t[0] == '-')
  {
    LexedKeys(t);
    ModeNames(t);
  }

  // ---------------------------------------------------------------- defaults

  /** A mode with no sub-arguments. */
  function PlainMode(kind: ModeKind, pingRate: real): ModeSpec {
    ModeSpec(kind, PubArgs(0.0, 12, 1), Config.SubArgs(Listener), PingArgs(pingRate, 12, Listener),
             Config.PongArgs(Listener))
  }

  /** The settings of a line that sets nothing. */
  function PlainSettings(m: ModeSpec): Settings {
    Settings([m], "/ros2_perf", false, KeepAll, 0, 0.0, false, false, -1, Multi)
  }

  function ModeNamed(mode: ModeKey): Option<ModeSpec> {
    match mode
    case PubKey => Some(PlainMode(KPub, 0.0))
    case SubKey => Some(PlainMode(KSub, 0.0))
    case PingKey => Some(PlainMode(KPing, 0.0))
    case PongKey => Some(PlainMode(KPong, 0.0))
    case SanityKey => Some(PlainMode(KPing, 1.0))
    case _ => None
  }

  lemma LoneModeStep(t: Token)
    requires !t.dash && ModeNamed(t.mode).Some?
    ensures StepOf([t], DEFAULT_SETTINGS) == Next(1, PlainSettings(ModeNamed(t.mode).value))
  {
    assert [t][1..] == [];
  }

  lemma LoneMode(t: Token)
    requires !t.dash && ModeNamed(t.mode).Some?
    ensures ParseRest([t], DEFAULT_SETTINGS)
         == ParseResult(Good, PlainSettings(ModeNamed(t.mode).value), NoComplaint)
  {
    LoneModeStep(t);
    assert [t][1..] == [];
  }

  /** A line of one mode keyword means that mode with everything at its default; sanity pings once a second. */
  lemma Defaults(t: string)
    ensures t == "pub" ==> Parse([t]) == ParseResult(Good, PlainSettings(PlainMode(KPub, 0.0)), NoComplaint)
    ensures t == "sub" ==> Parse([t]) == ParseResult(Good, PlainSettings(PlainMode(KSub, 0.0)), NoComplaint)
    ensures t == "ping" ==> Parse([t]) == ParseResult(Good, PlainSettings(PlainMode(KPing, 0.0)), NoComplaint)
    ensures t == "pong" ==> Parse([t]) == ParseResult(Good, PlainSettings(PlainMode(KPong, 0.0)), NoComplaint)
    ensures t == "sanity" ==> Parse([t]) == ParseResult(Good, PlainSettings(PlainMode(KPing, 1.0)), NoComplaint)
  {
    LexedKeys(t);
    ModeNames(t);
    MapOne(t, Lex);
    if ModeNamed(ModeKeyOf(t)).Some? {
      LoneMode(Lex(t));
    }
  }
}
