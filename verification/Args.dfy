/** The command-line parser (args.cpp). */
module Args {
  import opened Config
  import opened Numbers
  import opened Wire

  // ---------------------------------------------------------------- tokens

  datatype OptKey =
    | HelpOpt | VersionOpt
    | BestEffortOpt | IntraOpt | LatencyOpt
    | KeepOpt | DurationOpt | DomainOpt | TopicOpt | ExecutorOpt
    | UnknownOpt

  function OptKeyOf(t: string): OptKey {
    if t == "-h" || t == "--help" then HelpOpt
    else if t == "--version" then VersionOpt
    else if t == "-u" then BestEffortOpt
    else if t == "-L" then IntraOpt
    else if t == "-l" then LatencyOpt
    else if t == "-k" then KeepOpt
    else if t == "-D" then DurationOpt
    else if t == "-i" then DomainOpt
    else if t == "-t" then TopicOpt
    else if t == "-E" then ExecutorOpt
    else UnknownOpt
  }

  datatype ModeKey = PubKey | SubKey | PingKey | PongKey | SanityKey | HelpKey | NoMode

  function ModeKeyOf(t: string): ModeKey {
    if t == "pub" then PubKey
    else if t == "sub" then SubKey
    else if t == "ping" then PingKey
    else if t == "pong" then PongKey
    else if t == "sanity" then SanityKey
    else if t == "help" then HelpKey
    else NoMode
  }

  datatype Word = SizeWord | BurstWord | OtherWord

  function WordOf(t: string): Word {
    if t == "size" then SizeWord else if t == "burst" then BurstWord else OtherWord
  }

  function TriggerOf(t: string): Option<Trigger> {
    if t == "listener" then Some(Listener) else if t == "waitset" then Some(WaitSet) else None
  }

  function ExecutorOf(t: string): Option<Executor> {
    if t == "single" then Some(Single)
    else if t == "multi" then Some(Multi)
    else if t == "static" then Some(Static)
    else None
  }

  function KeepOf(t: string): Option<(Keep, U32)> {
    if t == "all" then Some((KeepAll, 0))
    else match Count(t) {
      case Some(n) => Some((KeepLast, n))
      case None => None
    }
  }

  /** A command-line token together with everything the parser may ask about its text. */
  datatype Token = Token(
    text: string, dash: bool, opt: OptKey, mode: ModeKey, word: Word,
    trigger: Option<Trigger>, executor: Option<Executor>, keep: Option<(Keep, U32)>,
    count: Option<U32>, domain: Option<int>, frequency: Option<real>, size: Option<U32>, duration: Option<real>)
  {
    /** A token that ends a mode's run of sub-arguments. */
    predicate Boundary() { mode != NoMode || dash }
  }

  function Lex(t: string): Token {
    Token(t, t != "" && t[0] == '-', OptKeyOf(t), ModeKeyOf(t), WordOf(t), TriggerOf(t), ExecutorOf(t), KeepOf(t),
          Count(t), Domain(t), Frequency(t), Size(t), Duration(t))
  }

  function Map<A, B>(xs: seq<A>, f: A -> B): (r: seq<B>)
    ensures |r| == |xs|
  {
    if xs == [] then [] else Map(xs[..|xs| - 1], f) + [f(xs[|xs| - 1])]
  }

  lemma MapOne<A, B>(x: A, f: A -> B)
    ensures Map([x], f) == [f(x)]
  {
    assert [x][..0] == [];
  }

  lemma MapLast<A, B>(xs: seq<A>, x: A, f: A -> B)
    ensures Map(xs + [x], f) == Map(xs, f) + [f(x)]
  {
    assert (xs + [x])[..|xs|] == xs;
  }

  lemma MapMore<A, B>(xs: seq<A>, k: nat, f: A -> B)
    requires 1 <= k < |xs|
    ensures Map(xs[1..k + 1], f) == Map(xs[1..k], f) + [f(xs[k])]
  {
    assert xs[1..k + 1] == xs[1..k] + [xs[k]];
    MapLast(xs[1..k], xs[k], f);
  }

  lemma {:induction false} MapConcat<A, B>(a: seq<A>, b: seq<A>, f: A -> B)
    ensures Map(a + b, f) == Map(a, f) + Map(b, f)
  {
    if b == [] {
      assert a + b == a;
    } else {
      var n := |b| - 1;
      MapConcat(a, b[..n], f);
      assert (a + b)[..|a + b| - 1] == a + b[..n];
    }
  }

  function LexAll(ts: seq<string>): (r: seq<Token>)
    ensures |r| == |ts|
  {
    Map(ts, Lex)
  }

  // ---------------------------------------------------------------- options

  datatype Status = Good | Help | Version | Error

  /** What the error message names; its wording is not modelled. */
  datatype Complaint =
    | NoComplaint
    | NoModeGiven
    | Unexpected(text: string)
    | UnknownOption(text: string)
    | MissingValue(text: string)
    | InvalidValue(text: string, value: string)
    | UnknownArgument(mode: ModeKind, text: string)

  datatype ParseResult = ParseResult(status: Status, cfg: Settings, error: Complaint)

  /** One step of the main loop: n tokens consumed, or parsing ends. */
  datatype Step = Next(n: nat, cfg: Settings) | Halt(status: Status, error: Complaint)

  predicate IsFlag(key: OptKey) { key.BestEffortOpt? || key.IntraOpt? || key.LatencyOpt? }

  predicate IsValued(key: OptKey) {
    key.KeepOpt? || key.DurationOpt? || key.DomainOpt? || key.TopicOpt? || key.ExecutorOpt?
  }

  function ApplyFlag(key: OptKey, cfg: Settings): Settings {
    match key
    case BestEffortOpt => cfg.(bestEffort := true)
    case IntraOpt => cfg.(intraProcess := true)
    case LatencyOpt => cfg.(reportLatency := true)
    case _ => cfg
  }

  predicate ValidValue(key: OptKey, v: Token) {
    match key
    case KeepOpt => v.keep.Some?
    case DurationOpt => v.duration.Some?
    case DomainOpt => v.domain.Some?
    case TopicOpt => true
    case ExecutorOpt => v.executor.Some?
    case _ => false
  }

  function ApplyValue(key: OptKey, v: Token, cfg: Settings): Settings
    requires ValidValue(key, v)
  {
    match key
    case KeepOpt => cfg.(keepMode := v.keep.value.0, keepDepth := v.keep.value.1)
    case DurationOpt => cfg.(durationS := v.duration.value)
    case DomainOpt => cfg.(domainId := v.domain.value)
    case TopicOpt => cfg.(topic := v.text)
    case ExecutorOpt => cfg.(executor := v.executor.value)
  }

  function OptionStep(rest: seq<Token>, cfg: Settings): Step
    requires rest != []
  {
    var t := rest[0];
    if t.opt.HelpOpt? then Halt(Help, NoComplaint)
    else if t.opt.VersionOpt? then Halt(Version, NoComplaint)
    else if IsFlag(t.opt) then Next(1, ApplyFlag(t.opt, cfg))
    else if t.opt.UnknownOpt? then Halt(Error, UnknownOption(t.text))
    else if |rest| < 2 then Halt(Error, MissingValue(t.text))
    else if ValidValue(t.opt, rest[1]) then Next(2, ApplyValue(t.opt, rest[1], cfg))
    else Halt(Error, InvalidValue(t.text, rest[1].text))
  }

  // ---------------------------------------------------------------- sub-arguments

  /** The outcome of some sub-arguments: how many tokens they took and what they say. */
  datatype Taken<A> = Taken(n: nat, args: A) | Bad(error: Complaint)

  function After<A>(k: nat, r: Taken<A>): Taken<A> {
    match r
    case Taken(n, a) => Taken(k + n, a)
    case Bad(_) => r
  }

  /** One sub-argument of pub. */
  function PubArg(rest: seq<Token>, pa: PubArgs): Taken<PubArgs>
    requires rest != []
  {
    var t := rest[0];
    if t.word.SizeWord? then
      if |rest| < 2 then Bad(MissingValue(t.text))
      else if rest[1].size.Some? then Taken(2, pa.(sizeBytes := rest[1].size.value))
      else Bad(InvalidValue(t.text, rest[1].text))
    else if t.word.BurstWord? then
      if |rest| < 2 then Bad(MissingValue(t.text))
      else if rest[1].count.Some? then Taken(2, pa.(burst := rest[1].count.value))
      else Bad(InvalidValue(t.text, rest[1].text))
    else if t.frequency.Some? then Taken(1, pa.(rateHz := t.frequency.value))
    else Bad(UnknownArgument(KPub, t.text))
  }

  function TakePub(rest: seq<Token>, pa: PubArgs): Taken<PubArgs> {
    if rest == [] || rest[0].Boundary() then Taken(0, pa)
    else match PubArg(rest, pa) {
      case Taken(n, pa') => After(n, TakePub(rest[n..], pa'))
      case Bad(e) => Bad(e)
    }
  }

  /** One sub-argument of ping. */
  function PingArg(rest: seq<Token>, pa: PingArgs): Taken<PingArgs>
    requires rest != []
  {
    var t := rest[0];
    if t.word.SizeWord? then
      if |rest| < 2 then Bad(MissingValue(t.text))
      else if rest[1].size.Some? then Taken(2, pa.(sizeBytes := rest[1].size.value))
      else Bad(InvalidValue(t.text, rest[1].text))
    else if t.trigger.Some? then Taken(1, pa.(trigger := t.trigger.value))
    else if t.frequency.Some? then Taken(1, pa.(rateHz := t.frequency.value))
    else Bad(UnknownArgument(KPing, t.text))
  }

  function TakePing(rest: seq<Token>, pa: PingArgs): Taken<PingArgs> {
    if rest == [] || rest[0].Boundary() then Taken(0, pa)
    else match PingArg(rest, pa) {
      case Taken(n, pa') => After(n, TakePing(rest[n..], pa'))
      case Bad(e) => Bad(e)
    }
  }

  /** sub and pong take triggers only. */
  function TakeTriggers(rest: seq<Token>, tr: Trigger, mode: ModeKind): Taken<Trigger> {
    if rest == [] || rest[0].Boundary() then Taken(0, tr)
    else if rest[0].trigger.Some? then After(1, TakeTriggers(rest[1..], rest[0].trigger.value, mode))
    else Bad(UnknownArgument(mode, rest[0].text))
  }

  // ---------------------------------------------------------------- the main loop, as a function of what is left

  function AddMode(cfg: Settings, m: ModeSpec): Settings { cfg.(modes := cfg.modes + [m]) }

  function PubSpec(a: PubArgs): ModeSpec { DefaultSpec(KPub).(pub := a) }

  function SubSpec(t: Trigger): ModeSpec { DefaultSpec(KSub).(sub := Config.SubArgs(t)) }

  function PingSpec(a: PingArgs): ModeSpec { DefaultSpec(KPing).(ping := a) }

  function PongSpec(t: Trigger): ModeSpec { DefaultSpec(KPong).(pong := Config.PongArgs(t)) }

  const DEFAULT_PUB := PubArgs(0.0, 12, 1)
  const DEFAULT_PING := PingArgs(0.0, 12, Listener)

  /** sanity stands for ping 1Hz. */
  const SANITY := PingSpec(DEFAULT_PING.(rateHz := 1.0))

  function WithMode<A>(cfg: Settings, r: Taken<A>, spec: A -> ModeSpec): Step {
    match r
    case Taken(n, a) => Next(1 + n, AddMode(cfg, spec(a)))
    case Bad(e) => Halt(Error, e)
  }

  function ModeStep(rest: seq<Token>, cfg: Settings): Step
    requires rest != []
  {
    match rest[0].mode
    case NoMode => Halt(Error, Unexpected(rest[0].text))
    case HelpKey => Halt(Help, NoComplaint)
    case SanityKey => Next(1, AddMode(cfg, SANITY))
    case PubKey => WithMode(cfg, TakePub(rest[1..], DEFAULT_PUB), PubSpec)
    case SubKey => WithMode(cfg, TakeTriggers(rest[1..], Listener, KSub), SubSpec)
    case PingKey => WithMode(cfg, TakePing(rest[1..], DEFAULT_PING), PingSpec)
    case PongKey => WithMode(cfg, TakeTriggers(rest[1..], Listener, KPong), PongSpec)
  }

  function StepOf(rest: seq<Token>, cfg: Settings): Step
    requires rest != []
  {
    if rest[0].dash then OptionStep(rest, cfg) else ModeStep(rest, cfg)
  }

  function ParseRest(rest: seq<Token>, cfg: Settings): ParseResult {
    if rest == [] then
      if cfg.modes == [] then ParseResult(Error, cfg, NoModeGiven) else ParseResult(Good, cfg, NoComplaint)
    else match StepOf(rest, cfg) {
      case Halt(status, error) => ParseResult(status, cfg, error)
      case Next(n, cfg') =>
        StepBounds(rest, cfg);
        ParseRest(rest[n..], cfg')
    }
  }

  /** The parse of the tokens before --ros-args. */
  function Parse(toks: seq<string>): ParseResult { ParseRest(LexAll(toks), DEFAULT_SETTINGS) }

  /** The cursor strictly advances and never passes the end. */
  lemma StepBounds(rest: seq<Token>, cfg: Settings)
    requires rest != []
    ensures StepOf(rest, cfg).Next? ==> 1 <= StepOf(rest, cfg).n <= |rest|
  {
    PubBounds(rest[1..], DEFAULT_PUB);
    PingBounds(rest[1..], DEFAULT_PING);
    TriggerBounds(rest[1..], Listener, KSub);
    TriggerBounds(rest[1..], Listener, KPong);
  }

  lemma {:induction false} PubBounds(rest: seq<Token>, pa: PubArgs)
    ensures TakePub(rest, pa).Taken? ==> TakePub(rest, pa).n <= |rest|
  {
    if rest != [] && !rest[0].Boundary() && PubArg(rest, pa).Taken? {
      PubBounds(rest[PubArg(rest, pa).n..], PubArg(rest, pa).args);
    }
  }

  lemma {:induction false} PingBounds(rest: seq<Token>, pa: PingArgs)
    ensures TakePing(rest, pa).Taken? ==> TakePing(rest, pa).n <= |rest|
  {
    if rest != [] && !rest[0].Boundary() && PingArg(rest, pa).Taken? {
      PingBounds(rest[PingArg(rest, pa).n..], PingArg(rest, pa).args);
    }
  }

  lemma {:induction false} TriggerBounds(rest: seq<Token>, tr: Trigger, mode: ModeKind)
    ensures TakeTriggers(rest, tr, mode).Taken? ==> TakeTriggers(rest, tr, mode).n <= |rest|
  {
    if rest != [] && !rest[0].Boundary() && rest[0].trigger.Some? {
      TriggerBounds(rest[1..], rest[0].trigger.value, mode);
    }
  }

  // ---------------------------------------------------------------- the cursor-based parser

  /** One sub-argument taken at i leads to the rest taken at j. */
  lemma PubStep(toks: seq<Token>, i: nat, j: nat, pa: PubArgs, pa': PubArgs)
    requires i < |toks| && i < j <= |toks| && !toks[i].Boundary()
    requires PubArg(toks[i..], pa) == Taken(j - i, pa')
    ensures TakePub(toks[i..], pa) == After(j - i, TakePub(toks[j..], pa'))
  {
    assert toks[i..][j - i..] == toks[j..];
  }

  lemma PingStep(toks: seq<Token>, i: nat, j: nat, pa: PingArgs, pa': PingArgs)
    requires i < |toks| && i < j <= |toks| && !toks[i].Boundary()
    requires PingArg(toks[i..], pa) == Taken(j - i, pa')
    ensures TakePing(toks[i..], pa) == After(j - i, TakePing(toks[j..], pa'))
  {
    assert toks[i..][j - i..] == toks[j..];
  }

  lemma TriggerStep(toks: seq<Token>, i: nat, tr: Trigger, mode: ModeKind)
    requires i < |toks| && !toks[i].Boundary() && toks[i].trigger.Some?
    ensures TakeTriggers(toks[i..], tr, mode)
         == After(1, TakeTriggers(toks[i + 1..], toks[i].trigger.value, mode))
  {
    assert toks[i..][1..] == toks[i + 1..];
  }

  /** The body of parse_pub_subargs' loop. */
  method ParsePubArg(toks: seq<Token>, start: nat, pa0: PubArgs) returns (i: nat, pa: PubArgs, err: Complaint)
    requires start < |toks|
    ensures start <= i <= |toks| && (err == NoComplaint ==> start < i)
    ensures PubArg(toks[start..], pa0) == if err == NoComplaint then Taken(i - start, pa) else Bad(err)
  {
    i, pa, err := start, pa0, NoComplaint;
    var t := toks[i];
    if t.word.SizeWord? {
      if i + 1 >= |toks| {
        return i, pa, MissingValue(t.text);
      }
      if toks[i + 1].size.None? {
        return i, pa, InvalidValue(t.text, toks[i + 1].text);
      }
      pa := pa.(sizeBytes := toks[i + 1].size.value);
      i := i + 2;
    } else if t.word.BurstWord? {
      if i + 1 >= |toks| {
        return i, pa, MissingValue(t.text);
      }
      if toks[i + 1].count.None? {
        return i, pa, InvalidValue(t.text, toks[i + 1].text);
      }
      pa := pa.(burst := toks[i + 1].count.value);
      i := i + 2;
    } else {
      if t.frequency.None? {
        return i, pa, UnknownArgument(KPub, t.text);
      }
      pa := pa.(rateHz := t.frequency.value);
      i := i + 1;
    }
  }

  method ParsePubSubargs(toks: seq<Token>, start: nat, pa0: PubArgs) returns (i: nat, pa: PubArgs, err: Complaint)
    requires start <= |toks|
    ensures start <= i <= |toks|
    ensures TakePub(toks[start..], pa0) == if err == NoComplaint then Taken(i - start, pa) else Bad(err)
  {
    i, pa, err := start, pa0, NoComplaint;
    while i < |toks| && !toks[i].Boundary()
      invariant start <= i <= |toks| && err == NoComplaint
      invariant TakePub(toks[start..], pa0) == After(i - start, TakePub(toks[i..], pa))
      decreases |toks| - i
    {
      ghost var before, pa1 := i, pa;
      i, pa, err := ParsePubArg(toks, i, pa);
      if err != NoComplaint {
        return;
      }
      PubStep(toks, before, i, pa1, pa);
    }
  }

  /** The body of parse_ping_subargs' loop. */
  method ParsePingArg(toks: seq<Token>, start: nat, pa0: PingArgs) returns (i: nat, pa: PingArgs, err: Complaint)
    requires start < |toks|
    ensures start <= i <= |toks| && (err == NoComplaint ==> start < i)
    ensures PingArg(toks[start..], pa0) == if err == NoComplaint then Taken(i - start, pa) else Bad(err)
  {
    i, pa, err := start, pa0, NoComplaint;
    var t := toks[i];
    if t.word.SizeWord? {
      if i + 1 >= |toks| {
        return i, pa, MissingValue(t.text);
      }
      if toks[i + 1].size.None? {
        return i, pa, InvalidValue(t.text, toks[i + 1].text);
      }
      return i + 2, pa.(sizeBytes := toks[i + 1].size.value), NoComplaint;
    }
    if t.trigger.Some? {
      return i + 1, pa.(trigger := t.trigger.value), NoComplaint;
    }
    if t.frequency.Some? {
      return i + 1, pa.(rateHz := t.frequency.value), NoComplaint;
    }
    err := UnknownArgument(KPing, t.text);
  }

  method ParsePingSubargs(toks: seq<Token>, start: nat, pa0: PingArgs) returns (i: nat, pa: PingArgs, err: Complaint)
    requires start <= |toks|
    ensures start <= i <= |toks|
    ensures TakePing(toks[start..], pa0) == if err == NoComplaint then Taken(i - start, pa) else Bad(err)
  {
    i, pa, err := start, pa0, NoComplaint;
    while i < |toks| && !toks[i].Boundary()
      invariant start <= i <= |toks| && err == NoComplaint
      invariant TakePing(toks[start..], pa0) == After(i - start, TakePing(toks[i..], pa))
      decreases |toks| - i
    {
      ghost var before, pa1 := i, pa;
      i, pa, err := ParsePingArg(toks, i, pa);
      if err != NoComplaint {
        return;
      }
      PingStep(toks, before, i, pa1, pa);
    }
  }

  /** parse_sub_subargs and parse_pong_subargs, which differ in the mode named by the error. */
  method ParseTriggerSubargs(toks: seq<Token>, start: nat, tr0: Trigger, mode: ModeKind)
    returns (i: nat, tr: Trigger, err: Complaint)
    requires start <= |toks|
    ensures start <= i <= |toks|
    ensures TakeTriggers(toks[start..], tr0, mode) == if err == NoComplaint then Taken(i - start, tr) else Bad(err)
  {
    i, tr, err := start, tr0, NoComplaint;
    while i < |toks| && !toks[i].Boundary()
      invariant start <= i <= |toks| && err == NoComplaint
      invariant TakeTriggers(toks[start..], tr0, mode) == After(i - start, TakeTriggers(toks[i..], tr, mode))
    {
      if toks[i].trigger.None? {
        err := UnknownArgument(mode, toks[i].text);
        return;
      }
      TriggerStep(toks, i, tr, mode);
      tr := toks[i].trigger.value;
      i := i + 1;
    }
  }

  method ParseMode(toks: seq<Token>, start: nat, cfg0: Settings)
    returns (i: nat, cfg: Settings, status: Status, err: Complaint)
    requires start < |toks|
    ensures start < i <= |toks| && (status != Good ==> cfg == cfg0)
    ensures ModeStep(toks[start..], cfg0) == if status == Good then Next(i - start, cfg) else Halt(status, err)
  {
    i, cfg, status, err := start + 1, cfg0, Good, NoComplaint;
    assert toks[start..][1..] == toks[i..];
    match toks[start].mode {
      case NoMode =>
        return i, cfg, Error, Unexpected(toks[start].text);
      case HelpKey =>
        return i, cfg, Help, NoComplaint;
      case SanityKey =>
        cfg := AddMode(cfg, SANITY);
      case PubKey =>
        var pa;
        i, pa, err := ParsePubSubargs(toks, i, DEFAULT_PUB);
        if err == NoComplaint {
          cfg := AddMode(cfg, PubSpec(pa));
        }
      case SubKey =>
        var tr;
        i, tr, err := ParseTriggerSubargs(toks, i, Listener, KSub);
        if err == NoComplaint {
          cfg := AddMode(cfg, SubSpec(tr));
        }
      case PingKey =>
        var pa;
        i, pa, err := ParsePingSubargs(toks, i, DEFAULT_PING);
        if err == NoComplaint {
          cfg := AddMode(cfg, PingSpec(pa));
        }
      case PongKey =>
        var tr;
        i, tr, err := ParseTriggerSubargs(toks, i, Listener, KPong);
        if err == NoComplaint {
          cfg := AddMode(cfg, PongSpec(tr));
        }
    }
    if err != NoComplaint {
      status := Error;
    }
  }

  method ParseOption(toks: seq<Token>, start: nat, cfg0: Settings)
    returns (i: nat, cfg: Settings, status: Status, err: Complaint)
    requires start < |toks|
    ensures start <= i <= |toks| && (status == Good ==> start < i) && (status != Good ==> cfg == cfg0)
    ensures OptionStep(toks[start..], cfg0) == if status == Good then Next(i - start, cfg) else Halt(status, err)
  {
    i, cfg, status, err := start, cfg0, Good, NoComplaint;
    var t := toks[i];
    if t.opt.HelpOpt? {
      return i + 1, cfg, Help, NoComplaint;
    } else if t.opt.VersionOpt? {
      return i + 1, cfg, Version, NoComplaint;
    } else if IsFlag(t.opt) {
      return i + 1, ApplyFlag(t.opt, cfg), Good, NoComplaint;
    } else if t.opt.UnknownOpt? {
      return i, cfg, Error, UnknownOption(t.text);
    }
    if i + 1 >= |toks| {
      return i, cfg, Error, MissingValue(t.text);
    }
    if !ValidValue(t.opt, toks[i + 1]) {
      return i, cfg, Error, InvalidValue(t.text, toks[i + 1].text);
    }
    return i + 2, ApplyValue(t.opt, toks[i + 1], cfg), Good, NoComplaint;
  }

  lemma StepKind(rest: seq<Token>, cfg: Settings)
    requires rest != []
    ensures StepOf(rest, cfg) == if rest[0].dash then OptionStep(rest, cfg) else ModeStep(rest, cfg)
  {
  }

  lemma OneStep(toks: seq<Token>, start: nat, cfg0: Settings, i: nat, cfg: Settings, status: Status, err: Complaint)
    requires start < |toks| && start <= i <= |toks| && (status != Good ==> cfg == cfg0)
    requires StepOf(toks[start..], cfg0) == if status == Good then Next(i - start, cfg) else Halt(status, err)
    ensures ParseRest(toks[start..], cfg0)
         == if status == Good then ParseRest(toks[i..], cfg) else ParseResult(status, cfg, err)
  {
    StepBounds(toks[start..], cfg0);
    if status == Good {
      assert toks[start..][i - start..] == toks[i..];
    }
  }

  /** One iteration of the main loop: an option, or a mode with its sub-arguments. */
  method ParseOne(toks: seq<Token>, start: nat, cfg0: Settings)
    returns (i: nat, cfg: Settings, status: Status, err: Complaint)
    requires start < |toks|
    ensures status == Good ==> start < i <= |toks|
    ensures ParseRest(toks[start..], cfg0)
         == if status == Good then ParseRest(toks[i..], cfg) else ParseResult(status, cfg, err)
  {
    if toks[start].dash {
      i, cfg, status, err := ParseOption(toks, start, cfg0);
    } else {
      i, cfg, status, err := ParseMode(toks, start, cfg0);
    }
    StepKind(toks[start..], cfg0);
    OneStep(toks, start, cfg0, i, cfg, status, err);
  }

  method ParseTokens(toks: seq<Token>) returns (result: ParseResult)
    ensures result == ParseRest(toks, DEFAULT_SETTINGS)
  {
    var cfg := DEFAULT_SETTINGS;
    var i := 0;
    while i < |toks|
      invariant i <= |toks|
      invariant ParseRest(toks[i..], cfg) == ParseRest(toks, DEFAULT_SETTINGS)
      decreases |toks| - i
    {
      var status, err;
      i, cfg, status, err := ParseOne(toks, i, cfg);
      if status != Good {
        return ParseResult(status, cfg, err);
      }
    }
    if cfg.modes == [] {
      return ParseResult(Error, cfg, NoModeGiven);
    }
    result := ParseResult(Good, cfg, NoComplaint);
  }

  const ROS_ARGS := "--ros-args"

  lemma LexOneMore(argv: seq<string>, k: nat)
    requires 1 <= k < |argv|
    ensures LexAll(argv[1..k + 1]) == LexAll(argv[1..k]) + [Lex(argv[k])]
  {
    MapMore(argv, k, Lex);
  }

  lemma StillAbsent<T>(x: T, s: seq<T>, k: nat)
    requires 1 <= k < |s| && x !in s[1..k] && s[k] != x
    ensures x !in s[1..k + 1]
  {
    assert s[1..k + 1] == s[1..k] + [s[k]];
  }

  /** parse_args: everything from --ros-args on is left alone; `consumed` is where it starts. */
  method ParseArgs(argv: seq<string>) returns (result: ParseResult, consumed: nat)
    requires argv != []
    ensures 1 <= consumed <= |argv|
    ensures "--ros-args" !in argv[1..consumed]
    ensures consumed < |argv| ==> argv[consumed] == "--ros-args"
    ensures result == Parse(argv[1..consumed])
  {
    var toks: seq<Token> := [];
    consumed := 1;
    while consumed < |argv| && argv[consumed] != ROS_ARGS
      invariant 1 <= consumed <= |argv|
      invariant toks == LexAll(argv[1..consumed]) && ROS_ARGS !in argv[1..consumed]
    {
      LexOneMore(argv, consumed);
      StillAbsent(ROS_ARGS, argv, consumed);
      toks := toks + [Lex(argv[consumed])];
      consumed := consumed + 1;
    }
    result := ParseTokens(toks);
  }
}
