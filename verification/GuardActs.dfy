/** What the context guard does in one sweep, told from the inputs and the configuration alone: each action happens exactly
    when it should, and leaves exactly the state it should. */
module GuardActs {
  import opened Options
  import opened ContextGuard
  import opened GuardRuns

  predicate Saturated(x: Inputs, cfg: Config) { cfg.saturationRestart && x.paneSaturated }

  /** The proactive guard finds the context past a threshold. */
  predicate Pressed(x: Inputs, cfg: Config) {
    cfg.enabled && x.pct.Some? && (x.pct.value >= cfg.actPct || x.pct.value >= cfg.hardPct)
  }

  /** Between the two thresholds: time enough for a handoff. */
  predicate ActTier(x: Inputs, cfg: Config) {
    cfg.enabled && x.pct.Some? && cfg.actPct <= x.pct.value < cfg.hardPct
  }

  /** A heavy session that has been quiet for the whole period and is seen idle. */
  predicate FlushTier(x: Inputs, cfg: Config) {
    && !Pressed(x, cfg) && cfg.idleFlushEnabled && x.paneIdle
    && x.contextTokens.Some? && x.contextTokens.value >= cfg.idleFlushTokens
    && x.idleMs.Some? && x.idleMs.value >= cfg.idleMinutes * 60000.0
  }

  /** The daily time has come for a session seen idle that no tier before claims: with the flush armed, one known to be light. */
  predicate DailyTier(x: Inputs, cfg: Config) {
    && !Pressed(x, cfg) && cfg.dailyHandoffEnabled && cfg.dailyHandoffTime.Some? && x.dailyHandoffDue && x.paneIdle
    && (cfg.idleFlushEnabled ==> x.contextTokens.Some? && x.contextTokens.value < cfg.idleFlushTokens)
  }

  /** In the idle phase a session is restarted exactly when its pane is saturated for the second time running, or, unsaturated,
      when the enabled guard measures it at the hard threshold and it is not in a turn; it is asked for a handoff exactly in
      one of three tiers, for the tier's own reason; and nothing is ever injected. */
  lemma IdleActs(s: GuardState, x: Inputs, cfg: Config)
    requires s.phase.Idle? && !cfg.AllOff()
    ensures var d := Decide(s, x, cfg); var calm := x.running && !Saturated(x, cfg);
            && (d.action.Restart? <==>
                  if calm then cfg.enabled && x.pct.Some? && x.pct.value >= cfg.hardPct && !x.paneBusy
                  else x.running && s.saturatedStreak >= 1)
            && (d.action.RequestHandoff? <==> calm && (ActTier(x, cfg) || FlushTier(x, cfg) || DailyTier(x, cfg)))
            && (d.reason.ActThreshold? <==> calm && ActTier(x, cfg))
            && (d.reason.IdleFlush? <==> calm && FlushTier(x, cfg))
            && (d.reason.DailyHandoff? <==> calm && DailyTier(x, cfg))
            && !d.action.InjectResume?
  {
    hide StaleMinutes;
  }

  /** Why a calm idle session is left alone, or restarted: each reason is given exactly when it is the case. The flush tier
      speaks only below the thresholds, the daily one only where the flush is off or knows the session to be light. */
  lemma IdleReasons(s: GuardState, x: Inputs, cfg: Config)
    requires s.phase.Idle? && !cfg.AllOff() && x.running && !Saturated(x, cfg)
    ensures var r := Decide(s, x, cfg).reason;
            var hard := cfg.enabled && x.pct.Some? && x.pct.value >= cfg.hardPct;
            var flush := !Pressed(x, cfg) && cfg.idleFlushEnabled;
            var heavy := x.contextTokens.Some? && x.contextTokens.value >= cfg.idleFlushTokens;
            var quiet := x.idleMs.Some? && x.idleMs.value >= cfg.idleMinutes * 60000.0;
            var light := !Pressed(x, cfg) && (cfg.idleFlushEnabled ==> x.contextTokens.Some? && !heavy);
            var daily := cfg.dailyHandoffEnabled && cfg.dailyHandoffTime.Some? && x.dailyHandoffDue;
            && (r.HardThreshold? <==> hard && !x.paneBusy) && (r.HardBusy? <==> hard && x.paneBusy)
            && (r.FlushUnmeasurable? <==> flush && x.contextTokens.None?)
            && (r.FlushIdleUnmeasurable? <==> flush && heavy && x.idleMs.None?)
            && (r.FlushNotQuiet? <==> flush && heavy && x.idleMs.Some? && !quiet)
            && (r.FlushPaneNotIdle? <==> flush && heavy && quiet && !x.paneIdle)
            && (r.DailyPaneNotIdle? <==> light && daily && !x.paneIdle)
            && (r.ProactiveOff? <==> light && !daily && !cfg.enabled)
            && (r.Unmeasurable? <==> light && !daily && cfg.enabled && x.pct.None?)
            && (r.BelowThreshold? <==> light && !daily && cfg.enabled && x.pct.Some?)
  {
    hide StaleMinutes;
  }

  /** How long the session went on after its handoff, when both times are known. */
  function WorkSince(x: Inputs): Option<real> {
    if x.handoffMtime.Some? && x.idleMs.Some? then Some(x.nowMs - x.idleMs.value - x.handoffMtime.value) else None
  }

  /** A handoff counts as behind by more than three minutes of work only, told to the nearest minute; without a transcript its
      freshness is unknown. */
  lemma StaleIs(x: Inputs)
    ensures var stale, work := StaleMinutes(x), WorkSince(x);
            && (stale.Unknown? <==> x.handoffMtime.Some? && x.idleMs.None?)
            && (stale.Behind? <==> work.Some? && work.value > 180000.0)
            && (stale.Behind? ==> stale.minutes as real - 0.5 <= work.value / 60000.0 < stale.minutes as real + 0.5)
  {
  }

  /** There is a handoff written since the request. */
  predicate Answered(s: GuardState, x: Inputs) {
    x.handoffMtime.Some? && (s.handoffMtimeAtRequest.Some? ==> x.handoffMtime.value > s.handoffMtimeAtRequest.value)
  }

  /** The answer is outdated, and there is still time to ask for another. */
  predicate Refreshable(s: GuardState, x: Inputs, cfg: Config) {
    && WorkSince(x).Some? && WorkSince(x).value > 180000.0 && x.nowMs < s.deadlineMs
    && !(x.pct.Some? && x.pct.value >= cfg.hardPct)
  }

  /** While a handoff is awaited: stand down exactly when no tier is left or the session is gone; else restart exactly when the
      pane is saturated, or shows idle with an answer that need not be refreshed, or, without an answer and an idle pane and
      not in a turn, has reached the hard threshold or the deadline; ask again exactly for an outdated answer in time. */
  lemma AwaitHandoffActs(s: GuardState, x: Inputs, cfg: Config)
    requires s.phase.AwaitHandoff? && !cfg.AllOff()
    ensures var d := Decide(s, x, cfg);
            var on := (cfg.enabled || cfg.idleFlushEnabled || cfg.dailyHandoffEnabled) && x.running;
            var done := Answered(s, x) && x.paneIdle;
            var due := (x.pct.Some? && x.pct.value >= cfg.hardPct) || x.nowMs >= s.deadlineMs;
            && (d.nextState.phase.Cooldown? <==> !on)
            && (d.action.Restart? <==>
                  on && (Saturated(x, cfg) || (done && !Refreshable(s, x, cfg)) || (!done && due && !x.paneBusy)))
            && (d.action.RequestHandoff? <==> on && !Saturated(x, cfg) && done && Refreshable(s, x, cfg))
            && (d.action.RequestHandoff? <==> d.reason.StaleRefresh?)
            && (d.reason.StaleRefresh? ==> StaleMinutes(x) == Behind(d.reason.minutes))
            && !d.action.InjectResume?
  {
    StaleIs(x);
    hide StaleMinutes;
  }

  /** The reasons of that phase, each exactly when it is the case; a restart on an answer reports how outdated it is. */
  lemma AwaitReasons(s: GuardState, x: Inputs, cfg: Config)
    requires s.phase.AwaitHandoff? && !cfg.AllOff()
    ensures var r := Decide(s, x, cfg).reason;
            var armed := cfg.enabled || cfg.idleFlushEnabled || cfg.dailyHandoffEnabled;
            var calm := armed && x.running && !Saturated(x, cfg);
            var done := Answered(s, x) && x.paneIdle;
            var hard, late := x.pct.Some? && x.pct.value >= cfg.hardPct, x.nowMs >= s.deadlineMs;
            && (r.StoodDown? <==> !armed) && (r.StoppedExternally? <==> armed && !x.running)
            && (r.SaturatedAwaiting? <==> armed && x.running && Saturated(x, cfg))
            && (r.HandoffWritten? <==> calm && done && !Refreshable(s, x, cfg))
            && (r.HandoffWritten? ==> r.staleness == StaleMinutes(x))
            && (r.HardAwaiting? <==> calm && !done && hard && !x.paneBusy)
            && (r.HardBusyAwaiting? <==> calm && !done && hard && x.paneBusy)
            && (r.HandoffTimeout? <==> calm && !done && !hard && late && !x.paneBusy)
            && (r.TimeoutBusy? <==> calm && !done && !hard && late && x.paneBusy)
            && (r.WrittenNotIdle? <==> calm && !hard && !late && Answered(s, x) && !x.paneIdle)
            && (r.WaitingForHandoff? <==> calm && !hard && !late && !Answered(s, x))
  {
    StaleIs(x);
    hide StaleMinutes;
  }

  /** A restarted session gets its resume prompt exactly when it runs and is ready; it is given up exactly when it is not by
      the deadline; and a cooldown ends exactly at its time. Nothing else is done in these phases. */
  lemma WaitingActs(s: GuardState, x: Inputs, cfg: Config)
    requires (s.phase.AwaitReady? || s.phase.Cooldown?) && !cfg.AllOff()
    ensures var d := Decide(s, x, cfg); var ready := x.running && x.sessionReady;
            && !d.action.Restart? && !d.action.RequestHandoff?
            && (d.action.InjectResume? <==> s.phase.AwaitReady? && ready)
            && (s.phase.AwaitReady? ==> (d.nextState.phase.Cooldown? <==> ready || x.nowMs >= s.deadlineMs))
            && (s.phase.Cooldown? ==> d.nextState == if x.nowMs >= s.cooldownUntilMs then INITIAL else s)
  {
    hide DecideIdle, DecideAwaitHandoff;
  }

  /** The state an action leaves: twenty minutes for the new session, the configured ones for handoff and cooldown, and the
      handoff that was there when one was asked for. */
  lemma ActionStates(s: GuardState, x: Inputs, cfg: Config)
    ensures var d := Decide(s, x, cfg); var n := d.nextState;
            && (d.action.Restart? ==> n == GuardState(AwaitReady, None, x.nowMs + 1200000.0, 0.0, 0, StaleMinutes(x)))
            && (d.action.RequestHandoff? && s.phase.Idle? ==>
                  n == GuardState(AwaitHandoff, x.handoffMtime, x.nowMs + cfg.handoffTimeoutMinutes * 60000.0, 0.0, 0, Covered))
            && (d.action.RequestHandoff? && !s.phase.Idle? ==> n == s.(handoffMtimeAtRequest := x.handoffMtime))
            && (n.phase.Cooldown? && !s.phase.Cooldown? ==>
                  n == GuardState(Cooldown, None, 0.0, x.nowMs + cfg.cooldownMinutes * 60000.0, 0, Covered))
  {
    hide StaleMinutes;
  }

  /** A sweep that does nothing changes nothing but the count of saturated sightings, which any other sighting of an idle
      session ends; a session that is gone, or a guard that is off, starts over. */
  lemma NothingDone(s: GuardState, x: Inputs, cfg: Config)
    requires Decide(s, x, cfg).action.NoAction? && Decide(s, x, cfg).nextState.phase == s.phase
    ensures var n := Decide(s, x, cfg).nextState;
            if cfg.AllOff() || (s.phase.Idle? && !x.running) then n == INITIAL
            else if s.phase.Idle? then n == s.(saturatedStreak := if Saturated(x, cfg) then s.saturatedStreak + 1 else 0)
            else n == s
  {
    hide StaleMinutes;
  }

  // ---- a restart is followed up ------------------------------------------

  /** Between a restart at sweep `i` and sweep `j` the new session was not ready, and its twenty minutes were not over. */
  ghost predicate NotReadyYet(r: Run, i: nat, j: nat)
    requires j <= |r.ins|
  {
    forall m :: i < m < j ==> !(r.ins[m].running && r.ins[m].sessionReady) && Charged(r, i, m) < 1200000.0
  }

  lemma ReadySweep(s: GuardState, x: Inputs, cfg: Config)
    requires s.phase.AwaitReady? && !cfg.AllOff() && !(x.running && x.sessionReady) && x.nowMs < s.deadlineMs
    ensures Decide(s, x, cfg).nextState == s
  {
    hide DecideIdle, DecideAwaitHandoff;
  }

  lemma Moved(s: GuardState, gapMs: real)
    requires gapMs >= 0.0 && s.deadlineMs > 0.0
    ensures Shift(s, gapMs).deadlineMs == s.deadlineMs + gapMs && Shift(s, gapMs).phase == s.phase
  {
  }

  lemma ChargeStep(r: Run, i: nat, j: nat)
    requires r.Valid() && i < j < |r.ins|
    ensures Charged(r, i, j) == Charged(r, i, j - 1) + Charge(r, j) && (j == i + 1 ==> Charged(r, i, i) == 0.0)
    ensures r.Gap(j) >= 0.0 && r.Gap(j) + Charge(r, j) == r.ins[j].nowMs - r.ins[j - 1].nowMs
    ensures r.ins[j].nowMs >= 0.0
  {
    hide Run.At;
    GapPositive(r, j);
  }

  lemma {:induction false} ReadyDeadline(r: Run, i: nat, j: nat)
    requires r.Valid() && i < j < |r.ins| && r.Does(i, Restart) && NotReadyYet(r, i, j)
    ensures r.Awake(j).phase.AwaitReady? && r.Awake(j).deadlineMs > 0.0
    ensures r.Awake(j).deadlineMs == r.ins[j].nowMs - Charged(r, i, j) + 1200000.0
    decreases j - i
  {
    hide Decide, Run.Valid, Run.At, Run.Before, Run.Awake, Run.Gap, Shift, Charged, Charge;
    Allowed(r.Awake(i), r.ins[i], r.cfg);
    Sweep(r, i);
    Sweep(r, j - 1);
    Sweep(r, j);
    ChargeStep(r, i, j);
    if j == i + 1 {
      ActionStates(r.Awake(i), r.ins[i], r.cfg);
      FirstClock(r, i);
    } else {
      ReadyDeadline(r, i, j - 1);
      ReadySweep(r.Awake(j - 1), r.ins[j - 1], r.cfg);
    }
    Moved(r.Before(j), r.Gap(j));
  }

  lemma FirstClock(r: Run, i: nat)
    requires r.Valid() && i < |r.ins|
    ensures r.ins[i].nowMs >= 0.0
  {
    hide Run.At;
  }

  /** Every restart is followed up: the first sweep that finds the new session running and ready within twenty charged minutes
      sends its resume prompt, and only that; the wait ends there, or at the first sweep that reaches the twenty minutes. */
  lemma RestartIsFollowedUp(r: Run, i: nat, j: nat)
    requires r.Valid() && i < j < |r.ins| && r.Does(i, Restart) && NotReadyYet(r, i, j)
    ensures var ready := r.ins[j].running && r.ins[j].sessionReady;
            && (r.Does(j, InjectResume) <==> ready)
            && (r.Before(j + 1).phase.Cooldown? <==> ready || Charged(r, i, j) >= 1200000.0)
            && !r.Does(j, Restart) && !r.Does(j, RequestHandoff)
  {
    hide Decide;
    ReadyDeadline(r, i, j);
    Allowed(r.Awake(i), r.ins[i], r.cfg);
    Sweep(r, j);
    WaitingActs(r.Awake(j), r.ins[j], r.cfg);
  }

  // ---- the daily tier asks once for each daily time ----------------------

  predicate AskedSince(r: Run, j: nat, t: real)
    requires j <= |r.ins|
  {
    exists m :: 0 <= m < j && r.At(m).reason.DailyHandoff? && r.ins[m].nowMs >= t
  }

  lemma {:induction false} LastIsLatest(r: Run, j: nat, t: real)
    requires r.Valid() && j <= |r.ins|
    ensures LastDaily(r, j).Some? && LastDaily(r, j).value >= t <==> AskedSince(r, j, t)
  {
    hide Decide;
    if j > 0 {
      LastIsLatest(r, j - 1, t);
      hide Run.At;
      if r.At(j - 1).reason.DailyHandoff? {
        assert forall m :: 0 <= m < j ==> r.ins[m].nowMs <= r.ins[j - 1].nowMs;
      } else if AskedSince(r, j, t) {
        assert AskedSince(r, j - 1, t);
      }
    }
  }

  /** The daily handoff is due exactly from its time on until it has been asked for: so two daily requests always have a daily
      time between them, and one that could not be made at the time itself is made up for. */
  lemma DailyIff(r: Run, dueAt: real -> real, j: nat)
    requires r.Valid() && Scheduled(r, dueAt) && j < |r.ins|
    ensures r.ins[j].dailyHandoffDue <==>
            && r.cfg.dailyHandoffEnabled && r.cfg.dailyHandoffTime.Some?
            && r.ins[j].nowMs >= dueAt(r.ins[j].nowMs) && !AskedSince(r, j, dueAt(r.ins[j].nowMs))
    ensures forall i :: 0 <= i < j && r.At(i).reason.DailyHandoff? && r.At(j).reason.DailyHandoff? ==>
              r.ins[i].nowMs < dueAt(r.ins[j].nowMs) <= r.ins[j].nowMs
  {
    hide Decide, Run.At, LastDaily, Scheduled, Run.Valid;
    ScheduledAt(r, dueAt, j);
    LastIsLatest(r, j, dueAt(r.ins[j].nowMs));
    Sweep(r, j);
    if r.At(j).reason.DailyHandoff? { DailyNeedsDue(r.Awake(j), r.ins[j], r.cfg); }
  }

  lemma DailyNeedsDue(s: GuardState, x: Inputs, cfg: Config)
    requires Decide(s, x, cfg).reason.DailyHandoff?
    ensures x.dailyHandoffDue
  {
  }
}
