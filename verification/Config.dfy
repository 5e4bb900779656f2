/** What a command line describes (config.hpp). */
module Config {
  import opened Wire

  datatype Trigger = Listener | WaitSet

  datatype Executor = Single | Multi | Static

  datatype ModeKind = KPub | KSub | KPing | KPong

  /** rateHz == 0 means as fast as possible. */
  datatype PubArgs = PubArgs(rateHz: real, sizeBytes: U32, burst: U32)

  datatype SubArgs = SubArgs(trigger: Trigger)

  /** rateHz == 0 means one ping per answered pong. */
  datatype PingArgs = PingArgs(rateHz: real, sizeBytes: U32, trigger: Trigger)

  datatype PongArgs = PongArgs(trigger: Trigger)

  /** Every mode carries all four argument groups; only the one named by kind is used. */
  datatype ModeSpec = ModeSpec(kind: ModeKind, pub: PubArgs, sub: SubArgs, ping: PingArgs, pong: PongArgs)

  function DefaultSpec(kind: ModeKind): ModeSpec {
    ModeSpec(kind, PubArgs(0.0, 12, 1), SubArgs(Listener), PingArgs(0.0, 12, Listener), PongArgs(Listener))
  }

  datatype Keep = KeepLast | KeepAll

  /** durationS == 0 runs until a signal; domainId == -1 leaves the domain alone. */
  datatype Settings = Settings(
    modes: seq<ModeSpec>, topic: string, bestEffort: bool, keepMode: Keep, keepDepth: U32,
    durationS: real, intraProcess: bool, reportLatency: bool, domainId: int, executor: Executor)

  const DEFAULT_SETTINGS :=
    Settings([], "/ros2_perf", false, KeepAll, 0, 0.0, false, false, -1, Multi)
}
