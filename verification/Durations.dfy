/** The lifecycle durations as Load accepts them, and what they buy at run time (internal/config/config.go). */
module Durations {
  import opened Wrappers
  import opened PendingList
  import opened Protocol
  import opened Heartbeat

  const SECOND := 1_000_000_000
  const DEFAULT_RECLAIM_MIN_IDLE := 30 * SECOND
  const DEFAULT_RECLAIM_INTERVAL := 5 * SECOND
  const DEFAULT_GC_INTERVAL := 300 * SECOND
  const DEFAULT_GC_TIMEOUT := 600 * SECOND

  /** An environment variable: unset, not a duration, or a number of nanoseconds. */
  datatype EnvVar = Unset | Malformed | Duration(ns: int)

  datatype Env = Env(minIdle: EnvVar, interval: EnvVar, gcInterval: EnvVar, gcTimeout: EnvVar, heartbeat: EnvVar)

  datatype ConfigError =
    | BadReclaimMinIdle | BadReclaimInterval | BadConsumerGCInterval | BadConsumerGCTimeout
    | ConsumerGCTimeoutTooSmall | BadHeartbeatInterval | HeartbeatIntervalTooLarge

  datatype Lifecycle = Lifecycle(minIdle: int, interval: int, gcInterval: int, gcTimeout: int, heartbeat: int)

  function ParseDurationEnv(v: EnvVar, def: int, sentinel: ConfigError): Result<int, ConfigError> {
    match v
    case Unset => Ok(def)
    case Malformed => Err(sentinel)
    case Duration(ns) => if ns <= 0 then Err(sentinel) else Ok(ns)
  }

  function LoadLifecycle(env: Env): Result<Lifecycle, ConfigError> {
    match ParseDurationEnv(env.minIdle, DEFAULT_RECLAIM_MIN_IDLE, BadReclaimMinIdle)
    case Err(e) => Err(e)
    case Ok(minIdle) =>
      match ParseDurationEnv(env.interval, DEFAULT_RECLAIM_INTERVAL, BadReclaimInterval)
      case Err(e) => Err(e)
      case Ok(interval) =>
        match ParseDurationEnv(env.gcInterval, DEFAULT_GC_INTERVAL, BadConsumerGCInterval)
        case Err(e) => Err(e)
        case Ok(gcInterval) =>
          match ParseDurationEnv(env.gcTimeout, DEFAULT_GC_TIMEOUT, BadConsumerGCTimeout)
          case Err(e) => Err(e)
          case Ok(gcTimeout) =>
            if gcTimeout <= minIdle then Err(ConsumerGCTimeoutTooSmall)
            else
              match ParseDurationEnv(env.heartbeat, minIdle / 2, BadHeartbeatInterval)
              case Err(e) => Err(e)
              case Ok(heartbeat) =>
                if heartbeat > minIdle / 2 then Err(HeartbeatIntervalTooLarge)
                else Ok(Lifecycle(minIdle, interval, gcInterval, gcTimeout, heartbeat))
  }

  /** Load's checks, one after the other. */
  method Load(env: Env) returns (r: Result<Lifecycle, ConfigError>)
    ensures r == LoadLifecycle(env)
  {
    var minIdle := ParseDurationEnv(env.minIdle, DEFAULT_RECLAIM_MIN_IDLE, BadReclaimMinIdle);
    if minIdle.Err? { return Err(minIdle.error); }
    var interval := ParseDurationEnv(env.interval, DEFAULT_RECLAIM_INTERVAL, BadReclaimInterval);
    if interval.Err? { return Err(interval.error); }
    var gcInterval := ParseDurationEnv(env.gcInterval, DEFAULT_GC_INTERVAL, BadConsumerGCInterval);
    if gcInterval.Err? { return Err(gcInterval.error); }
    var gcTimeout := ParseDurationEnv(env.gcTimeout, DEFAULT_GC_TIMEOUT, BadConsumerGCTimeout);
    if gcTimeout.Err? { return Err(gcTimeout.error); }
    if gcTimeout.value <= minIdle.value { return Err(ConsumerGCTimeoutTooSmall); }
    var heartbeat := ParseDurationEnv(env.heartbeat, minIdle.value / 2, BadHeartbeatInterval);
    if heartbeat.Err? { return Err(heartbeat.error); }
    if heartbeat.value > minIdle.value / 2 { return Err(HeartbeatIntervalTooLarge); }
    r := Ok(Lifecycle(minIdle.value, interval.value, gcInterval.value, gcTimeout.value, heartbeat.value));
  }

  /** Unset, or a positive duration. */
  predicate Usable(v: EnvVar) {
    v.Unset? || (v.Duration? && v.ns > 0)
  }

  /** The given duration, or the default. */
  function Given(v: EnvVar, def: int): int {
    if v.Duration? then v.ns else def
  }

  /**
   Exactly what Load accepts, and that it takes the given durations: by default 30s, 5s, 5min and 10min, and
   half of minIdle for the heartbeat. Otherwise the first check that fails names the error.
   */
  lemma LoadAcceptsExactly(env: Env)
    ensures var r := LoadLifecycle(env);
            var minIdle, gcTimeout := Given(env.minIdle, 30_000_000_000), Given(env.gcTimeout, 600_000_000_000);
            var heartbeat := Given(env.heartbeat, minIdle / 2);
            if !Usable(env.minIdle) then r == Err(BadReclaimMinIdle)
            else if !Usable(env.interval) then r == Err(BadReclaimInterval)
            else if !Usable(env.gcInterval) then r == Err(BadConsumerGCInterval)
            else if !Usable(env.gcTimeout) then r == Err(BadConsumerGCTimeout)
            else if gcTimeout <= minIdle then r == Err(ConsumerGCTimeoutTooSmall)
            else if !Usable(env.heartbeat) then r == Err(BadHeartbeatInterval)
            else if 2 * heartbeat > minIdle then r == Err(HeartbeatIntervalTooLarge)
            else r == Ok(Lifecycle(minIdle, Given(env.interval, 5_000_000_000), Given(env.gcInterval, 300_000_000_000),
                                   gcTimeout, heartbeat))
  {
  }

  /** An empty environment is accepted. */
  lemma DefaultsAreAccepted()
    ensures LoadLifecycle(Env(Unset, Unset, Unset, Unset, Unset)) ==
            Ok(Lifecycle(30_000_000_000, 5_000_000_000, 300_000_000_000, 600_000_000_000, 15_000_000_000))
  {
    LoadAcceptsExactly(Env(Unset, Unset, Unset, Unset, Unset));
  }

  /** consume.New: a heartbeat interval that is not positive falls back to half of reclaimMinIdle. */
  function HeartbeatOf(heartbeat: int, minIdle: int): int {
    if heartbeat <= 0 then minIdle / 2 else heartbeat
  }

  /** Load does not check its own default: the interval it accepts is positive exactly when min-idle is at least 2ns. */
  lemma AcceptedHeartbeat(env: Env)
    requires LoadLifecycle(env).Ok?
    ensures var l := LoadLifecycle(env).value;
            && 0 < l.minIdle < l.gcTimeout && 0 < l.interval && 0 < l.gcInterval
            && 0 <= l.heartbeat && 2 * l.heartbeat <= l.minIdle
            && (l.heartbeat > 0 <==> l.minIdle >= 2)
            && HeartbeatOf(l.heartbeat, l.minIdle) == l.heartbeat
            && (env.heartbeat.Unset? ==> (2 * l.heartbeat < l.minIdle <==> l.minIdle % 2 == 1))
  {
  }

  predicate Configured(cfg: Setup, l: Lifecycle) {
    && cfg.minIdle == l.minIdle && cfg.gcTimeout == l.gcTimeout
    && cfg.beatEvery == HeartbeatOf(l.heartbeat, l.minIdle)
  }

  /** The heartbeat loop can run: time.NewTicker panics on an interval of 0, which Load accepts for a minIdle of 1ns. */
  predicate Ticks(cfg: Setup) { cfg.beatEvery > 0 }

  /**
   Under any accepted configuration whose heartbeat runs, an entry that is not yet reclaimable at the next tick
   cannot be stolen from a punctual process that loses no heartbeat.
   */
  lemma AcceptedConfigHolds(env: Env, cfg: Setup, s: State, c: Name, e: Id, idle: Time, steps: seq<Step>)
    requires LoadLifecycle(env).Ok? && Configured(cfg, LoadLifecycle(env).value) && Ticks(cfg)
    requires Published(cfg, s, c, e, idle) && Flight(cfg, s, c, e, 0, steps)
    requires idle + (s.nodes[c].tickBy - s.g.now) < cfg.minIdle
    ensures var t := Run(cfg, s, steps).value; !Claimable(t.g.pel, e, cfg.minIdle, t.g.now)
  {
    AcceptedHeartbeat(env);
    NeverClaimable(cfg, s, c, e, idle, 0, steps);
  }

  /**
   One lost heartbeat: an entry just claimed survives it, at any phase of the ticker, exactly when twice the
   interval is below reclaimMinIdle. With the default interval, half of reclaimMinIdle, that means exactly when
   reclaimMinIdle is an odd number of nanoseconds; the shipped 30s default does not survive it.
   */
  lemma OneLostHeartbeat(env: Env, cfg: Setup, s: State, c: Name, e: Id)
    requires LoadLifecycle(env).Ok? && Configured(cfg, LoadLifecycle(env).value) && Ticks(cfg)
    requires Published(cfg, s, c, e, 0) && e in s.g.pel && s.nodes[c].beat.None?
    ensures !Exposed(cfg, s, c, e, 1) <==> 2 * cfg.beatEvery < cfg.minIdle
    ensures env.heartbeat.Unset? ==> (!Exposed(cfg, s, c, e, 1) <==> cfg.minIdle % 2 == 1)
  {
    AcceptedHeartbeat(env);
    HeartbeatBoundIsExact(cfg, s, c, e, 0, 1);
  }
}
