/** Which settings a command line can produce: exactly those that can be printed. */
module ParserImage {
  import opened Args
  import opened Config
  import opened Decimals
  import opened Numbers
  import opened Printer

  // ---------------------------------------------------------------- the numbers that can be read

  lemma {:induction false} ScaledTerminates(m: nat, e: int)
    ensures Terminating(Scaled(m, e))
    decreases if e > 0 then e else 0
  {
    if e > 0 {
      ScaledTerminates(10 * m, e - 1);
    } else {
      assert IsScaled(Scaled(m, e), m, -e);
    }
  }

  lemma {:induction false} ScaledThousandfold(m: int, k: nat)
    ensures Scaled(m, 0 - k) * 1000.0 == Scaled(1000 * m, 0 - k)
  {
    if k > 0 {
      ScaledThousandfold(m, k - 1);
    }
  }

  lemma ThousandfoldTerminates(r: real)
    requires Terminating(r)
    ensures Terminating(r * 1000.0)
  {
    var m: nat, k: nat :| IsScaled(r, m, k);
    ScaledThousandfold(m, k);
    assert IsScaled(r * 1000.0, 1000 * m, k);
  }

  /** What strtod reads is the scaled value of some digits, negative only after a minus sign. */
  lemma StrtodScaled(s: string) returns (n: nat, e: int)
    requires Strtod(s).Number?
    ensures Strtod(s).value == Scaled(Signed(s, n), e)
  {
    var m := MantissaOf(s[SignLength(s)..]);
    n, e := ValueOf(m.digits), Exponent(m.tail).0 - m.places;
  }

  lemma NonNegativeTerminates(s: string)
    requires Strtod(s).Number? && Strtod(s).value >= 0.0
    ensures Terminating(Strtod(s).value)
  {
    var n, e := StrtodScaled(s);
    ScaledSign(Signed(s, n), e);
    ScaledTerminates(Signed(s, n), e);
  }

  lemma UnsignedTerminates(s: string)
    requires Strtod(s).Number? && s != "" && s[0] != '-'
    ensures Terminating(Strtod(s).value)
  {
    var n, e := StrtodScaled(s);
    ScaledTerminates(n, e);
  }

  lemma HertzTerminates(v: real, unit: string)
    requires Terminating(v) && InUnits(Number(v, unit), FREQUENCY_UNITS).Some?
    ensures Terminating(InUnits(Number(v, unit), FREQUENCY_UNITS).value)
  {
    HertzMeans(v, unit);
    ThousandfoldTerminates(v);
  }

  lemma FrequencyTerminates(s: string)
    requires Frequency(s).Some? && (s == "" || s[0] != '-')
    ensures Terminating(Frequency(s).value)
  {
    if Strtod(s).NoNumber? {
      FrequencyElse(s);
      ScaledTerminates(0, 0);
    } else {
      NumberStart(s);
      UnsignedTerminates(s);
      FrequencyIs(s, Strtod(s));
      HertzTerminates(Strtod(s).value, Strtod(s).rest);
    }
  }

  // ---------------------------------------------------------------- tokens

  /** What every token guarantees about its values. */
  ghost predicate GoodToken(t: Token) {
    && (!t.dash && t.frequency.Some? ==> Terminating(t.frequency.value))
    && (t.duration.Some? ==> Terminating(t.duration.value))
    && (t.domain.Some? ==> 0 <= t.domain.value <= 232)
    && (t.keep.Some? && t.keep.value.0.KeepAll? ==> t.keep.value.1 == 0)
  }

  lemma GoodFrequency(w: string)
    ensures (w == "" || w[0] != '-') && Frequency(w).Some? ==> Terminating(Frequency(w).value)
  {
    if (w == "" || w[0] != '-') && Frequency(w).Some? {
      FrequencyTerminates(w);
    }
  }

  lemma GoodDuration(w: string)
    ensures Duration(w).Some? ==> Terminating(Duration(w).value)
  {
    if Duration(w).Some? {
      NonNegativeTerminates(w);
    }
  }

  lemma GoodLex(w: string)
    ensures GoodToken(Lex(w))
  {
    GoodFrequency(w);
    GoodDuration(w);
  }

  ghost predicate AllGood(ts: seq<Token>) {
    forall i :: 0 <= i < |ts| ==> GoodToken(ts[i])
  }

  lemma {:induction false} GoodWords(ws: seq<string>)
    ensures AllGood(LexAll(ws))
  {
    if ws != [] {
      var n := |ws| - 1;
      GoodWords(ws[..n]);
      GoodLex(ws[n]);
      AllGoodMore(LexAll(ws[..n]), Lex(ws[n]));
    }
  }

  lemma AllGoodMore(ts: seq<Token>, t: Token)
    requires AllGood(ts) && GoodToken(t)
    ensures AllGood(ts + [t])
  {
  }

  // ---------------------------------------------------------------- the parser keeps to the printable

  lemma {:induction false} PubKeeps(rest: seq<Token>, pa: PubArgs)
    requires AllGood(rest) && Terminating(pa.rateHz)
    ensures TakePub(rest, pa).Taken? ==> Terminating(TakePub(rest, pa).args.rateHz)
  {
    if rest != [] && !rest[0].Boundary() && PubArg(rest, pa).Taken? {
      assert GoodToken(rest[0]);
      PubKeeps(rest[PubArg(rest, pa).n..], PubArg(rest, pa).args);
    }
  }

  lemma {:induction false} PingKeeps(rest: seq<Token>, pa: PingArgs)
    requires AllGood(rest) && Terminating(pa.rateHz)
    ensures TakePing(rest, pa).Taken? ==> Terminating(TakePing(rest, pa).args.rateHz)
  {
    if rest != [] && !rest[0].Boundary() && PingArg(rest, pa).Taken? {
      assert GoodToken(rest[0]);
      PingKeeps(rest[PingArg(rest, pa).n..], PingArg(rest, pa).args);
    }
  }

  /** Achievable, except that there may be no mode yet. */
  ghost predicate SoFar(cfg: Settings) {
    && (forall i :: 0 <= i < |cfg.modes| ==> AchievableMode(cfg.modes[i]))
    && (cfg.keepMode.KeepAll? ==> cfg.keepDepth == 0)
    && Terminating(cfg.durationS)
    && -1 <= cfg.domainId <= 232
  }

  lemma OptionKeeps(rest: seq<Token>, cfg: Settings)
    requires rest != [] && AllGood(rest) && SoFar(cfg) && OptionStep(rest, cfg).Next?
    ensures SoFar(OptionStep(rest, cfg).cfg)
  {
    assert |rest| > 1 ==> GoodToken(rest[1]);
  }

  lemma ZeroAndOneTerminate()
    ensures Terminating(0.0) && Terminating(1.0)
  {
    ScaledTerminates(0, 0);
    ScaledTerminates(1, 0);
  }

  lemma AddModeKeeps(cfg: Settings, m: ModeSpec)
    requires SoFar(cfg) && AchievableMode(m)
    ensures SoFar(AddMode(cfg, m))
  {
  }

  lemma WithModeKeeps<A>(cfg: Settings, r: Taken<A>, spec: A -> ModeSpec)
    requires SoFar(cfg) && (r.Taken? ==> AchievableMode(spec(r.args)))
    ensures WithMode(cfg, r, spec).Next? ==> SoFar(WithMode(cfg, r, spec).cfg)
  {
    if r.Taken? {
      AddModeKeeps(cfg, spec(r.args));
    }
  }

  lemma ModeKeeps(rest: seq<Token>, cfg: Settings)
    requires rest != [] && AllGood(rest) && SoFar(cfg) && ModeStep(rest, cfg).Next?
    ensures SoFar(ModeStep(rest, cfg).cfg)
  {
    ZeroAndOneTerminate();
    assert AllGood(rest[1..]);
    match rest[0].mode {
      case PubKey =>
        PubKeeps(rest[1..], DEFAULT_PUB);
        WithModeKeeps(cfg, TakePub(rest[1..], DEFAULT_PUB), PubSpec);
      case PingKey =>
        PingKeeps(rest[1..], DEFAULT_PING);
        WithModeKeeps(cfg, TakePing(rest[1..], DEFAULT_PING), PingSpec);
      case SubKey =>
        WithModeKeeps(cfg, TakeTriggers(rest[1..], Listener, KSub), SubSpec);
      case PongKey =>
        WithModeKeeps(cfg, TakeTriggers(rest[1..], Listener, KPong), PongSpec);
      case SanityKey =>
        AddModeKeeps(cfg, SANITY);
      case _ =>
    }
  }

  lemma {:induction false} ParseKeeps(rest: seq<Token>, cfg: Settings)
    requires AllGood(rest) && SoFar(cfg)
    ensures SoFar(ParseRest(rest, cfg).cfg)
  {
    if rest != [] && StepOf(rest, cfg).Next? {
      StepBounds(rest, cfg);
      if rest[0].dash {
        OptionKeeps(rest, cfg);
      } else {
        ModeKeeps(rest, cfg);
      }
      ParseKeeps(rest[StepOf(rest, cfg).n..], StepOf(rest, cfg).cfg);
    }
  }

  /** An accepted command line only ever produces settings that can be printed. */
  lemma ParsedIsAchievable(toks: seq<string>)
    requires Parse(toks).status.Good?
    ensures Achievable(Parse(toks).cfg)
  {
    ZeroAndOneTerminate();
    GoodWords(toks);
    ParseKeeps(LexAll(toks), DEFAULT_SETTINGS);
    GoodHasModes(LexAll(toks), DEFAULT_SETTINGS);
  }

  lemma {:induction false} GoodHasModes(rest: seq<Token>, cfg: Settings)
    requires ParseRest(rest, cfg).status.Good?
    ensures ParseRest(rest, cfg).cfg.modes != [] && ParseRest(rest, cfg).error == NoComplaint
  {
    if rest != [] {
      StepBounds(rest, cfg);
      GoodHasModes(rest[StepOf(rest, cfg).n..], StepOf(rest, cfg).cfg);
    }
  }

  ghost predicate Produces(toks: seq<string>, cfg: Settings) {
    Parse(toks) == ParseResult(Good, cfg, NoComplaint)
  }

  /** The image of the parser: settings come out of some accepted command line exactly when they are achievable. */
  lemma ImageIsAchievable(cfg: Settings)
    ensures (exists toks :: Produces(toks, cfg)) <==> Achievable(cfg)
  {
    if toks :| Produces(toks, cfg) {
      ParsedIsAchievable(toks);
    }
    if Achievable(cfg) {
      RoundTrip(cfg);
      assert Produces(Print(cfg), cfg);
    }
  }

  /** Printing what an accepted command line says and parsing that again changes nothing. */
  lemma ReprintingIsStable(toks: seq<string>)
    requires Parse(toks).status.Good?
    ensures Achievable(Parse(toks).cfg) && Parse(Print(Parse(toks).cfg)) == Parse(toks)
  {
    ParsedIsAchievable(toks);
    RoundTrip(Parse(toks).cfg);
    GoodHasModes(LexAll(toks), DEFAULT_SETTINGS);
  }
}
