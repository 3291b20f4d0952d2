/** The context guard of src/context-guard.ts: one decision per agent and sweep, on a state that is carried to the next
    sweep. Times are milliseconds, as reals; the wording of reasons is reduced to which branch spoke. */
module ContextGuard {
  import opened Options

  const MINUTE: real := 60000.0
  const READY_TIMEOUT_MS: real := 20.0 * MINUTE
  const STALE_HANDOFF_SLACK_MS: real := 3.0 * MINUTE
  const SLEEP_GAP_SWEEPS: real := 3.0
  const SATURATION_CONFIRM_SWEEPS := 2

  datatype Config = Config(
    enabled: bool, saturationRestart: bool, actPct: real, hardPct: real, limitTokens: Option<int>,
    cooldownMinutes: real, handoffTimeoutMinutes: real,
    idleFlushEnabled: bool, idleFlushTokens: int, idleMinutes: real,
    dailyHandoffEnabled: bool, dailyHandoffTime: Option<string>)
  {
    /** What every normalised configuration guarantees about its periods. */
    predicate Positive() {
      cooldownMinutes > 0.0 && handoffTimeoutMinutes > 0.0 && idleMinutes > 0.0
    }

    predicate AllOff() {
      !enabled && !saturationRestart && !idleFlushEnabled && !dailyHandoffEnabled
    }

    function CooldownMs(): real { cooldownMinutes * MINUTE }

    function HandoffTimeoutMs(): real { handoffTimeoutMinutes * MINUTE }

    function QuietMs(): real { idleMinutes * MINUTE }
  }

  datatype Phase = Idle | AwaitHandoff | AwaitReady | Cooldown

  /** How far a handoff is behind the last activity: not at all (or nothing to judge), unknown, or some minutes. */
  datatype Staleness = Covered | Unknown | Behind(minutes: int)

  datatype GuardState = GuardState(
    phase: Phase, handoffMtimeAtRequest: Option<real>, deadlineMs: real, cooldownUntilMs: real,
    saturatedStreak: nat, handoffStaleMinutes: Staleness)

  const INITIAL := GuardState(Idle, None, 0.0, 0.0, 0, Covered)

  datatype Inputs = Inputs(
    nowMs: real, pct: Option<real>, running: bool, paneIdle: bool, paneBusy: bool, sessionReady: bool,
    handoffMtime: Option<real>, paneSaturated: bool, contextTokens: Option<int>, idleMs: Option<real>,
    dailyHandoffDue: bool)

  datatype Action = NoAction | RequestHandoff | Restart | InjectResume

  datatype Reason =
    | Disabled | CooldownElapsed | CoolingDown | NotRunning | SaturatedConfirmed | SaturatedOnce
    | HardBusy | HardThreshold | ActThreshold
    | FlushUnmeasurable | FlushIdleUnmeasurable | FlushNotQuiet | FlushPaneNotIdle | IdleFlush
    | DailyPaneNotIdle | DailyHandoff | ProactiveOff | Unmeasurable | BelowThreshold
    | StoodDown | StoppedExternally | SaturatedAwaiting | StaleRefresh(minutes: int) | HandoffWritten(staleness: Staleness)
    | HardBusyAwaiting | HardAwaiting | TimeoutBusy | HandoffTimeout | WrittenNotIdle | WaitingForHandoff
    | SessionReady | ReadyTimeout | WaitingForSession

  datatype Decision = Decision(action: Action, reason: Reason, nextState: GuardState)

  // ---- sleep -------------------------------------------------------------

  function SleepGap(lastSweepMs: Option<real>, nowMs: real, intervalMs: real): real {
    if lastSweepMs.None? then 0.0
    else
      var elapsed := nowMs - lastSweepMs.value;
      if elapsed <= intervalMs * SLEEP_GAP_SWEEPS then 0.0 else elapsed - intervalMs
  }

  function ShiftStamp(t: real, gapMs: real): real {
    if t > 0.0 then t + gapMs else 0.0
  }

  function Shift(s: GuardState, gapMs: real): GuardState {
    if gapMs <= 0.0 then s
    else s.(deadlineMs := ShiftStamp(s.deadlineMs, gapMs), cooldownUntilMs := ShiftStamp(s.cooldownUntilMs, gapMs))
  }

  // ---- decisions ---------------------------------------------------------

  function Rounded(x: real): int { (x + 0.5).Floor }

  function StaleMinutes(inputs: Inputs): Staleness {
    if inputs.handoffMtime.None? then Covered
    else if inputs.idleMs.None? then Unknown
    else
      var gapMs := inputs.nowMs - inputs.idleMs.value - inputs.handoffMtime.value;
      if gapMs > STALE_HANDOFF_SLACK_MS then Behind(Rounded(gapMs / MINUTE)) else Covered
  }

  function CoolDown(nowMs: real, cfg: Config, reason: Reason): Decision {
    Decision(NoAction, reason, GuardState(Cooldown, None, 0.0, nowMs + cfg.CooldownMs(), 0, Covered))
  }

  function RestartNow(nowMs: real, reason: Reason, staleness: Staleness): Decision {
    Decision(Restart, reason, GuardState(AwaitReady, None, nowMs + READY_TIMEOUT_MS, 0.0, 0, staleness))
  }

  function HandoffRequest(inputs: Inputs, cfg: Config, reason: Reason): Decision {
    Decision(RequestHandoff, reason,
             GuardState(AwaitHandoff, inputs.handoffMtime, inputs.nowMs + cfg.HandoffTimeoutMs(), 0.0, 0, Covered))
  }

  /** The two tiers that answer "is this session about to break"; None when neither applies. */
  function DecideWedgeTiers(inputs: Inputs, cfg: Config, cleared: GuardState): Option<Decision>
    requires inputs.pct.Some?
  {
    var pct := inputs.pct.value;
    if pct >= cfg.hardPct then
      if inputs.paneBusy then Some(Decision(NoAction, HardBusy, cleared))
      else Some(RestartNow(inputs.nowMs, HardThreshold, StaleMinutes(inputs)))
    else if pct >= cfg.actPct then Some(HandoffRequest(inputs, cfg, ActThreshold))
    else None
  }

  /** The tier that hands off a heavy but quiet session; None when it does not apply. */
  function DecideIdleFlush(inputs: Inputs, cfg: Config, cleared: GuardState): Option<Decision> {
    if inputs.contextTokens.None? then Some(Decision(NoAction, FlushUnmeasurable, cleared))
    else if inputs.contextTokens.value < cfg.idleFlushTokens then None
    else if inputs.idleMs.None? then Some(Decision(NoAction, FlushIdleUnmeasurable, cleared))
    else if inputs.idleMs.value < cfg.QuietMs() then Some(Decision(NoAction, FlushNotQuiet, cleared))
    else if !inputs.paneIdle then Some(Decision(NoAction, FlushPaneNotIdle, cleared))
    else Some(HandoffRequest(inputs, cfg, IdleFlush))
  }

  /** What remains of the idle phase below the flush tier. */
  function DecideDaily(inputs: Inputs, cfg: Config, cleared: GuardState): Decision {
    if cfg.dailyHandoffEnabled && cfg.dailyHandoffTime.Some? && inputs.dailyHandoffDue then
      if !inputs.paneIdle then Decision(NoAction, DailyPaneNotIdle, cleared)
      else HandoffRequest(inputs, cfg, DailyHandoff)
    else if !cfg.enabled then Decision(NoAction, ProactiveOff, cleared)
    else if inputs.pct.None? then Decision(NoAction, Unmeasurable, cleared)
    else Decision(NoAction, BelowThreshold, cleared)
  }

  /** A sweep that does not see the pane saturated ends the streak. */
  function Cleared(s: GuardState): GuardState {
    if s.saturatedStreak > 0 then s.(saturatedStreak := 0) else s
  }

  function DecideIdle(s: GuardState, inputs: Inputs, cfg: Config): Decision {
    if !inputs.running then Decision(NoAction, NotRunning, INITIAL)
    else if cfg.saturationRestart && inputs.paneSaturated then
      var streak := s.saturatedStreak + 1;
      if streak >= SATURATION_CONFIRM_SWEEPS then RestartNow(inputs.nowMs, SaturatedConfirmed, StaleMinutes(inputs))
      else Decision(NoAction, SaturatedOnce, s.(saturatedStreak := streak))
    else
      var cleared := Cleared(s);
      var wedge := if cfg.enabled && inputs.pct.Some? then DecideWedgeTiers(inputs, cfg, cleared) else None;
      if wedge.Some? then wedge.value
      else
        var flush := if cfg.idleFlushEnabled then DecideIdleFlush(inputs, cfg, cleared) else None;
        if flush.Some? then flush.value else DecideDaily(inputs, cfg, cleared)
  }

  predicate HandoffIsNew(s: GuardState, inputs: Inputs) {
    inputs.handoffMtime.Some? &&
    (s.handoffMtimeAtRequest.None? || inputs.handoffMtime.value > s.handoffMtimeAtRequest.value)
  }

  predicate AtHard(inputs: Inputs, cfg: Config) {
    inputs.pct.Some? && inputs.pct.value >= cfg.hardPct
  }

  function DecideAwaitHandoff(s: GuardState, inputs: Inputs, cfg: Config): Decision {
    if !cfg.enabled && !cfg.idleFlushEnabled && !cfg.dailyHandoffEnabled then CoolDown(inputs.nowMs, cfg, StoodDown)
    else if !inputs.running then CoolDown(inputs.nowMs, cfg, StoppedExternally)
    else if cfg.saturationRestart && inputs.paneSaturated then
      RestartNow(inputs.nowMs, SaturatedAwaiting, StaleMinutes(inputs))
    else if HandoffIsNew(s, inputs) && inputs.paneIdle then
      var stale := StaleMinutes(inputs);
      if stale.Behind? && inputs.nowMs < s.deadlineMs && !AtHard(inputs, cfg) then
        Decision(RequestHandoff, StaleRefresh(stale.minutes), s.(handoffMtimeAtRequest := inputs.handoffMtime))
      else RestartNow(inputs.nowMs, HandoffWritten(stale), stale)
    else if AtHard(inputs, cfg) then
      if inputs.paneBusy then Decision(NoAction, HardBusyAwaiting, s)
      else RestartNow(inputs.nowMs, HardAwaiting, StaleMinutes(inputs))
    else if inputs.nowMs >= s.deadlineMs then
      if inputs.paneBusy then Decision(NoAction, TimeoutBusy, s)
      else RestartNow(inputs.nowMs, HandoffTimeout, StaleMinutes(inputs))
    else Decision(NoAction, if HandoffIsNew(s, inputs) then WrittenNotIdle else WaitingForHandoff, s)
  }

  function DecideAwaitReady(s: GuardState, inputs: Inputs, cfg: Config): Decision {
    if inputs.running && inputs.sessionReady then
      Decision(InjectResume, SessionReady, GuardState(Cooldown, None, 0.0, inputs.nowMs + cfg.CooldownMs(), 0, Covered))
    else if inputs.nowMs >= s.deadlineMs then CoolDown(inputs.nowMs, cfg, ReadyTimeout)
    else Decision(NoAction, WaitingForSession, s)
  }

  function Decide(s: GuardState, inputs: Inputs, cfg: Config): Decision {
    if cfg.AllOff() then Decision(NoAction, Disabled, INITIAL)
    else match s.phase
      case Cooldown =>
        if inputs.nowMs >= s.cooldownUntilMs then Decision(NoAction, CooldownElapsed, INITIAL)
        else Decision(NoAction, CoolingDown, s)
      case Idle => DecideIdle(s, inputs, cfg)
      case AwaitHandoff => DecideAwaitHandoff(s, inputs, cfg)
      case AwaitReady => DecideAwaitReady(s, inputs, cfg)
  }

  // ---- what a sleep shows ------------------------------------------------

  /** The machine sleeps for `length` from `at` on. */
  datatype Sleep = Sleep(at: real, length: real)

  /** What is written once the machine is awake again is stamped that much later. */
  function MoveStamp(t: Option<real>, z: Sleep): Option<real> {
    if t.Some? && t.value > z.at then Some(t.value + z.length) else t
  }

  /** When the session last wrote to its transcript; a stamp in the future counts as now. */
  function LastActivity(inputs: Inputs): Option<real> {
    if inputs.idleMs.None? then None else Some(inputs.nowMs - inputs.idleMs.value)
  }

  /** The same session seen after the sleep: the clock and every stamp written since have moved, older stamps have not, and
      the daily time may have come meanwhile. */
  function Woken(inputs: Inputs, z: Sleep, due: bool): Inputs {
    var activity := MoveStamp(LastActivity(inputs), z);
    inputs.(nowMs := inputs.nowMs + z.length, handoffMtime := MoveStamp(inputs.handoffMtime, z), dailyHandoffDue := due,
            idleMs := if activity.None? then None else Some(inputs.nowMs + z.length - activity.value))
  }

  function Carry(s: GuardState, z: Sleep): GuardState {
    Shift(s, z.length).(handoffMtimeAtRequest := MoveStamp(s.handoffMtimeAtRequest, z))
  }

  /** The decision with its deadlines and its recorded handoff moved. */
  function Carried(d: Decision, z: Sleep): Decision {
    d.(nextState := Carry(d.nextState, z))
  }

  /** The handoff was written before the sleep and work went on after it: the sleep counts as work the handoff misses. */
  predicate StaleShows(inputs: Inputs, z: Sleep) {
    && inputs.handoffMtime.Some? && inputs.idleMs.Some?
    && inputs.handoffMtime.value <= z.at < LastActivity(inputs).value
    && var gap := LastActivity(inputs).value - inputs.handoffMtime.value;
       && gap + z.length > STALE_HANDOFF_SLACK_MS
       && (gap <= STALE_HANDOFF_SLACK_MS || Rounded((gap + z.length) / MINUTE) != Rounded(gap / MINUTE))
  }

  /** No tier more urgent than the flush takes a session in the idle phase. */
  predicate Calm(inputs: Inputs, cfg: Config) {
    && inputs.running && !(cfg.saturationRestart && inputs.paneSaturated)
    && !(cfg.enabled && inputs.pct.Some? && (inputs.pct.value >= cfg.hardPct || inputs.pct.value >= cfg.actPct))
  }

  /** A heavy session that has done nothing since before the sleep crosses the quiet period while the machine sleeps. */
  predicate QuietReached(inputs: Inputs, cfg: Config, z: Sleep) {
    && cfg.idleFlushEnabled && inputs.contextTokens.Some? && inputs.contextTokens.value >= cfg.idleFlushTokens
    && inputs.idleMs.Some? && LastActivity(inputs).value <= z.at
    && inputs.idleMs.value < cfg.QuietMs() <= inputs.idleMs.value + z.length
  }

  /** The daily tier is asked, and the sleep made another answer of it. */
  predicate DailyReached(inputs: Inputs, cfg: Config, due: bool) {
    && (cfg.idleFlushEnabled ==> inputs.contextTokens.Some? && inputs.contextTokens.value < cfg.idleFlushTokens)
    && cfg.dailyHandoffEnabled && cfg.dailyHandoffTime.Some? && inputs.dailyHandoffDue != due
  }

  predicate TierReached(s: GuardState, inputs: Inputs, cfg: Config, z: Sleep, due: bool) {
    s.phase.Idle? && Calm(inputs, cfg) && (QuietReached(inputs, cfg, z) || DailyReached(inputs, cfg, due))
  }

  /** The sleep shows in what is done or remembered: a session seen idle is asked for a handoff, or no longer is, or a restart
      is put off or reports more missing work. */
  predicate Shows(s: GuardState, inputs: Inputs, cfg: Config, z: Sleep, due: bool) {
    || (TierReached(s, inputs, cfg, z, due) && inputs.paneIdle)
    || (StaleShows(inputs, z) && Decide(s, inputs, cfg).action.Restart?)
  }

  /** The sleep shows in the reason given. */
  predicate ShowsInReason(s: GuardState, inputs: Inputs, cfg: Config, z: Sleep, due: bool) {
    || TierReached(s, inputs, cfg, z, due)
    || (StaleShows(inputs, z) && (Decide(s, inputs, cfg).action.Restart? || Decide(s, inputs, cfg).reason.StaleRefresh?))
  }

  /** The slept decision does the same and leaves the moved form of the same state. */
  predicate SameDone(plain: Decision, slept: Decision, z: Sleep) {
    slept.action == plain.action && slept.nextState == Carry(plain.nextState, z)
  }

  lemma StaleWoken(inputs: Inputs, z: Sleep, due: bool)
    requires z.length >= 0.0
    ensures StaleMinutes(Woken(inputs, z, due)) == StaleMinutes(inputs) <==> !StaleShows(inputs, z)
    ensures StaleShows(inputs, z) ==> StaleMinutes(Woken(inputs, z, due)).Behind?
  {
  }

  lemma NewWoken(s: GuardState, inputs: Inputs, z: Sleep, due: bool)
    requires z.length >= 0.0
    ensures HandoffIsNew(Carry(s, z), Woken(inputs, z, due)) <==> HandoffIsNew(s, inputs)
  {
    hide Shift;
  }

  lemma RequestMoves(inputs: Inputs, cfg: Config, reason: Reason, z: Sleep, due: bool)
    requires cfg.Positive() && inputs.nowMs >= 0.0 && z.length >= 0.0
    ensures HandoffRequest(Woken(inputs, z, due), cfg, reason) == Carried(HandoffRequest(inputs, cfg, reason), z)
    ensures HandoffRequest(inputs, cfg, reason).action.RequestHandoff? && HandoffRequest(inputs, cfg, reason).reason == reason
  {
  }

  /** Two restarts that differ at most in how far the handoff is behind. */
  lemma RestartMoves(nowMs: real, reason: Reason, a: Staleness, b: Staleness, z: Sleep)
    requires nowMs >= 0.0 && z.length >= 0.0
    ensures var plain, slept := RestartNow(nowMs, reason, a), RestartNow(nowMs + z.length, reason, b);
            && plain.action.Restart? && slept.action.Restart? && plain.reason == slept.reason == reason
            && slept.nextState == Carry(plain.nextState, z).(handoffStaleMinutes := b)
            && (slept.nextState == Carry(plain.nextState, z) <==> a == b)
  {
  }

  lemma SleepAwaitHandoff(s: GuardState, inputs: Inputs, cfg: Config, z: Sleep, due: bool)
    requires cfg.Positive() && inputs.nowMs >= 0.0 && z.length >= 0.0
    ensures var plain, slept := DecideAwaitHandoff(s, inputs, cfg), DecideAwaitHandoff(Carry(s, z), Woken(inputs, z, due), cfg);
            && (SameDone(plain, slept, z) <==> !(StaleShows(inputs, z) && plain.action.Restart?))
            && (slept == Carried(plain, z) <==> !(StaleShows(inputs, z) && (plain.action.Restart? || plain.reason.StaleRefresh?)))
  {
    StaleWoken(inputs, z, due);
    NewWoken(s, inputs, z, due);
    hide StaleMinutes, HandoffIsNew, StaleShows;
  }

  lemma WedgeMoves(inputs: Inputs, cfg: Config, cleared: GuardState, z: Sleep, due: bool)
    requires cfg.Positive() && inputs.nowMs >= 0.0 && z.length >= 0.0 && inputs.pct.Some?
    ensures var plain, slept := DecideWedgeTiers(inputs, cfg, cleared), DecideWedgeTiers(Woken(inputs, z, due), cfg, Carry(cleared, z));
            && (plain.Some? <==> slept.Some?)
            && (plain.Some? <==> inputs.pct.value >= cfg.hardPct || inputs.pct.value >= cfg.actPct)
            && (plain.Some? ==>
                  && !plain.value.reason.StaleRefresh? && slept.value.reason == plain.value.reason
                  && (SameDone(plain.value, slept.value, z) <==> !(StaleShows(inputs, z) && plain.value.action.Restart?)))
  {
    StaleWoken(inputs, z, due);
    RequestMoves(inputs, cfg, ActThreshold, z, due);
    RestartMoves(inputs.nowMs, HardThreshold, StaleMinutes(inputs), StaleMinutes(Woken(inputs, z, due)), z);
    hide StaleMinutes, HandoffRequest, RestartNow, Carry, StaleShows;
  }

  lemma DailyMoves(inputs: Inputs, cfg: Config, cleared: GuardState, z: Sleep, due: bool)
    requires cfg.Positive() && inputs.nowMs >= 0.0 && z.length >= 0.0
    ensures var plain, slept := DecideDaily(inputs, cfg, cleared), DecideDaily(Woken(inputs, z, due), cfg, Carry(cleared, z));
            var shows := cfg.dailyHandoffEnabled && cfg.dailyHandoffTime.Some? && inputs.dailyHandoffDue != due;
            && !plain.action.Restart? && !plain.reason.StaleRefresh?
            && (SameDone(plain, slept, z) <==> !(shows && inputs.paneIdle))
            && (slept == Carried(plain, z) <==> !shows)
  {
    RequestMoves(inputs, cfg, DailyHandoff, z, due);
    hide HandoffRequest, Carry;
  }

  lemma FlushMoves(inputs: Inputs, cfg: Config, cleared: GuardState, z: Sleep, due: bool)
    requires cfg.Positive() && inputs.nowMs >= 0.0 && z.length >= 0.0 && cfg.idleFlushEnabled
    ensures var plain, slept := DecideIdleFlush(inputs, cfg, cleared), DecideIdleFlush(Woken(inputs, z, due), cfg, Carry(cleared, z));
            var shows := QuietReached(inputs, cfg, z);
            && (plain.Some? <==> slept.Some?)
            && (plain.None? <==> inputs.contextTokens.Some? && inputs.contextTokens.value < cfg.idleFlushTokens)
            && (plain.None? ==> !shows)
            && (plain.Some? ==>
                  && !plain.value.action.Restart? && !plain.value.reason.StaleRefresh?
                  && (SameDone(plain.value, slept.value, z) <==> !(shows && inputs.paneIdle))
                  && (slept.value == Carried(plain.value, z) <==> !shows))
  {
    RequestMoves(inputs, cfg, IdleFlush, z, due);
    RequestMoves(Woken(inputs, z, due), cfg, IdleFlush, Sleep(0.0, 0.0), due);
    hide HandoffRequest, Carry;
  }

  lemma ClearedMoves(s: GuardState, z: Sleep)
    ensures Cleared(Carry(s, z)) == Carry(Cleared(s), z) && Carry(s, z).saturatedStreak == s.saturatedStreak
    ensures Carry(s, z).(saturatedStreak := s.saturatedStreak + 1) == Carry(s.(saturatedStreak := s.saturatedStreak + 1), z)
    ensures Carry(INITIAL, z) == INITIAL && Carry(s, z).phase == s.phase
  {
  }

  /** What a sleep shows of a sweep in the idle phase. */
  predicate IdleShows(s: GuardState, inputs: Inputs, cfg: Config, z: Sleep, due: bool) {
    var plain, slept := DecideIdle(s, inputs, cfg), DecideIdle(Carry(s, z), Woken(inputs, z, due), cfg);
    var tier := Calm(inputs, cfg) && (QuietReached(inputs, cfg, z) || DailyReached(inputs, cfg, due));
    var stale := StaleShows(inputs, z) && plain.action.Restart?;
    && !plain.reason.StaleRefresh?
    && (SameDone(plain, slept, z) <==> !(tier && inputs.paneIdle) && !stale)
    && (slept == Carried(plain, z) <==> !tier && !stale)
  }

  /** Three tiers decide on a running session in the idle phase whose pane is not saturated. */
  lemma SleepInTiers(s: GuardState, inputs: Inputs, cfg: Config, z: Sleep, due: bool)
    requires cfg.Positive() && inputs.nowMs >= 0.0 && z.length >= 0.0
    requires inputs.running && !(cfg.saturationRestart && inputs.paneSaturated)
    ensures IdleShows(s, inputs, cfg, z, due)
  {
    ClearedMoves(s, z);
    if inputs.pct.Some? { WedgeMoves(inputs, cfg, Cleared(s), z, due); }
    if cfg.idleFlushEnabled { FlushMoves(inputs, cfg, Cleared(s), z, due); }
    DailyMoves(inputs, cfg, Cleared(s), z, due);
    hide StaleMinutes, Carry, DecideWedgeTiers, DecideDaily, DecideIdleFlush, QuietReached, StaleShows, Cleared;
  }

  lemma SleepInIdle(s: GuardState, inputs: Inputs, cfg: Config, z: Sleep, due: bool)
    requires cfg.Positive() && inputs.nowMs >= 0.0 && z.length >= 0.0
    ensures IdleShows(s, inputs, cfg, z, due)
  {
    if inputs.running && !(cfg.saturationRestart && inputs.paneSaturated) {
      SleepInTiers(s, inputs, cfg, z, due);
      hide IdleShows;
    } else {
      ClearedMoves(s, z);
      StaleWoken(inputs, z, due);
      RestartMoves(inputs.nowMs, SaturatedConfirmed, StaleMinutes(inputs), StaleMinutes(Woken(inputs, z, due)), z);
      hide StaleMinutes, Carry, RestartNow, StaleShows;
    }
  }

  lemma SleepElsewhere(s: GuardState, inputs: Inputs, cfg: Config, z: Sleep, due: bool)
    requires cfg.Positive() && inputs.nowMs >= 0.0 && z.length >= 0.0
    requires cfg.AllOff() || s.phase.AwaitReady? || s.phase.Cooldown?
    ensures Decide(Carry(s, z), Woken(inputs, z, due), cfg) == Carried(Decide(s, inputs, cfg), z)
    ensures !Decide(s, inputs, cfg).action.Restart? && !Decide(s, inputs, cfg).reason.StaleRefresh?
  {
    hide DecideIdle, DecideAwaitHandoff;
  }

  /** Exactly when a sleep shows in one sweep, for any session and any schedule: what is done and remembered is that of the
      sleepless sweep exactly when no session seen idle crosses the quiet period or the daily time, and no restart goes out
      whose handoff was written before the sleep and outdated after it. The reason too, idle or not. */
  lemma SleepInvisibleIff(s: GuardState, inputs: Inputs, cfg: Config, z: Sleep, due: bool)
    requires cfg.Positive() && inputs.nowMs >= 0.0 && z.length >= 0.0
    ensures var plain, slept := Decide(s, inputs, cfg), Decide(Carry(s, z), Woken(inputs, z, due), cfg);
            && (SameDone(plain, slept, z) <==> !Shows(s, inputs, cfg, z, due))
            && (slept == Carried(plain, z) <==> !ShowsInReason(s, inputs, cfg, z, due))
  {
    ClearedMoves(s, z);
    if cfg.AllOff() || s.phase.AwaitReady? || s.phase.Cooldown? {
      SleepElsewhere(s, inputs, cfg, z, due);
      hide Decide, StaleShows, QuietReached, Carry;
    } else if s.phase.AwaitHandoff? {
      SleepAwaitHandoff(s, inputs, cfg, z, due);
      hide DecideAwaitHandoff, StaleShows, Woken, Carry;
    } else {
      SleepInIdle(s, inputs, cfg, z, due);
      hide DecideIdle, StaleShows, QuietReached, DailyReached, Calm, Woken, Carry;
    }
  }

  /** A handoff that was fresh enough is outdated by the sleep when the session wrote its last line after it: instead of the
      restart goes out a request for another handoff. */
  lemma SleepPutsOffRestart(s: GuardState, inputs: Inputs, cfg: Config, z: Sleep, due: bool)
    requires s.phase.AwaitHandoff? && (cfg.enabled || cfg.idleFlushEnabled || cfg.dailyHandoffEnabled)
    requires inputs.running && inputs.paneIdle && !(cfg.saturationRestart && inputs.paneSaturated) && !AtHard(inputs, cfg)
    requires z.length >= 0.0 && 0.0 < s.deadlineMs && inputs.nowMs < s.deadlineMs && HandoffIsNew(s, inputs) && inputs.idleMs.Some?
    requires inputs.handoffMtime.value <= z.at < LastActivity(inputs).value
    requires LastActivity(inputs).value - inputs.handoffMtime.value <= STALE_HANDOFF_SLACK_MS
    ensures Decide(s, inputs, cfg).action.Restart?
    ensures Decide(Carry(s, z), Woken(inputs, z, due), cfg).action.RequestHandoff? <==>
            LastActivity(inputs).value - inputs.handoffMtime.value + z.length > STALE_HANDOFF_SLACK_MS
  {
    NewWoken(s, inputs, z, due);
  }

  /** As long as the sleep does not show in what is done, the daily tier asks in the same sweeps. */
  lemma DailyKept(s: GuardState, inputs: Inputs, cfg: Config, z: Sleep, due: bool)
    requires cfg.Positive() && inputs.nowMs >= 0.0 && z.length >= 0.0
    requires SameDone(Decide(s, inputs, cfg), Decide(Carry(s, z), Woken(inputs, z, due), cfg), z)
    ensures Decide(Carry(s, z), Woken(inputs, z, due), cfg).reason.DailyHandoff? <==> Decide(s, inputs, cfg).reason.DailyHandoff?
  {
    SleepInvisibleIff(s, inputs, cfg, z, due);
    ClearedMoves(s, z);
    DailyAsks(s, inputs, cfg);
    DailyAsks(Carry(s, z), Woken(inputs, z, due), cfg);
    hide Decide, Carry, StaleShows;
  }

  lemma DailyAsks(s: GuardState, inputs: Inputs, cfg: Config)
    ensures Decide(s, inputs, cfg).reason.DailyHandoff? ==> s.phase.Idle? && inputs.paneIdle
    ensures Decide(s, inputs, cfg).reason.StaleRefresh? ==> s.phase.AwaitHandoff?
  {
  }

  /** The same observations made `g` later by a session that did nothing in between. */
  function Later(inputs: Inputs, g: real): Inputs {
    inputs.(nowMs := inputs.nowMs + g,
            idleMs := if inputs.idleMs.None? then None else Some(inputs.idleMs.value + g))
  }

  /** A sleep that began after the last activity and the last handoff. */
  function Undisturbed(s: GuardState, inputs: Inputs, g: real): (z: Sleep)
    ensures z.length == g && Woken(inputs, z, inputs.dailyHandoffDue) == Later(inputs, g) && Carry(s, z) == Shift(s, g)
    ensures inputs.handoffMtime.Some? ==> inputs.handoffMtime.value <= z.at
    ensures s.handoffMtimeAtRequest.Some? ==> s.handoffMtimeAtRequest.value <= z.at
    ensures inputs.idleMs.Some? ==> LastActivity(inputs).value <= z.at
  {
    var stamp := (t: Option<real>) => if t.None? then 0.0 else t.value;
    var max := (a: real, b: real) => if a > b then a else b;
    Sleep(max(max(stamp(inputs.handoffMtime), stamp(LastActivity(inputs))), stamp(s.handoffMtimeAtRequest)), g)
  }

  /** With its deadlines moved by the sleep, every sweep of a session that did nothing since before it decides, for the same
      reason, what it would have decided without the sleep, and leaves the moved form of the same state; the idle-flush
      tier, whose question is how long the session has been quiet, is the one exception. */
  lemma SleepInvisible(s: GuardState, inputs: Inputs, cfg: Config, g: real)
    requires cfg.Positive() && inputs.nowMs >= 0.0 && g >= 0.0
    requires !(s.phase.Idle? && cfg.idleFlushEnabled)
    ensures var plain, slept := Decide(s, inputs, cfg), Decide(Shift(s, g), Later(inputs, g), cfg);
            slept.action == plain.action && slept.reason == plain.reason && slept.nextState == Shift(plain.nextState, g)
  {
    var z := Undisturbed(s, inputs, g);
    SleepInvisibleIff(s, inputs, cfg, z, inputs.dailyHandoffDue);
    NextHandoff(s, inputs, cfg);
    hide Decide, Undisturbed, Shift, Woken, Later;
  }

  /** The recorded handoff is one that was recorded or seen before. */
  lemma NextHandoff(s: GuardState, inputs: Inputs, cfg: Config)
    ensures var h := Decide(s, inputs, cfg).nextState.handoffMtimeAtRequest;
            h.None? || h == s.handoffMtimeAtRequest || h == inputs.handoffMtime
  {
  }

  // ---- window calibration ------------------------------------------------

  const TIERS: seq<int> := [200000, 500000, 1000000]

  /** An observation is explained by a window it exceeds by no more than a quarter. */
  predicate Explains(limit: int, observed: int) {
    observed as real <= limit as real * 1.25
  }

  /** Steps the window up to the smallest tier that explains the observation. */
  method CalibrateLimit(observed: int, baseLimit: int) returns (limit: int)
    ensures limit == baseLimit || (limit in TIERS && limit > baseLimit)
    ensures 4 * observed <= 5 * baseLimit ==> limit == baseLimit
    ensures forall t :: t in TIERS && baseLimit <= t < limit ==> 4 * observed > 5 * t
    ensures 4 * observed > 5 * limit ==> limit >= baseLimit && forall t :: t in TIERS ==> t <= limit
  {
    limit := baseLimit;
    for k := 0 to |TIERS|
      invariant limit == baseLimit || (k > 0 && limit == TIERS[k - 1] && limit > baseLimit && !Explains(baseLimit, observed))
      invariant forall j :: 0 <= j < k ==> TIERS[j] <= limit
      invariant forall t :: t in TIERS && baseLimit <= t < limit ==> !Explains(t, observed)
    {
      if Explains(limit, observed) {
        return;
      }
      if TIERS[k] > limit {
        limit := TIERS[k];
      }
    }
  }

  lemma TiersAre(t: int)
    ensures t in TIERS <==> t == 200000 || t == 500000 || t == 1000000
  {
  }
}
