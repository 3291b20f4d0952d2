/** Whole runs of the context guard for one agent: every sweep first moves the deadlines by the time the machine slept,
    then decides, and carries the new state to the next sweep. */
module GuardRuns {
  import opened Options
  import opened ContextGuard

  datatype Run = Run(ins: seq<Inputs>, cfg: Config, intervalMs: real)
  {
    /** A fixed, normalised configuration, a clock that never goes back, and panes that are not idle and busy at once. */
    ghost predicate Valid() {
      && cfg.Positive() && intervalMs > 0.0
      && (forall i :: 0 <= i < |ins| ==> ins[i].nowMs >= 0.0 && !(ins[i].paneIdle && ins[i].paneBusy))
      && (forall i, j :: 0 <= i <= j < |ins| ==> ins[i].nowMs <= ins[j].nowMs)
    }

    function Gap(i: nat): real
      requires i < |ins|
    {
      SleepGap(if i == 0 then None else Some(ins[i - 1].nowMs), ins[i].nowMs, intervalMs)
    }

    /** The state the i-th sweep finds, before the deadlines are moved. */
    function Before(i: nat): GuardState
      requires i <= |ins|
      decreases i, 0
    {
      if i == 0 then INITIAL else At(i - 1).nextState
    }

    /** The state the i-th sweep decides on. */
    function Awake(i: nat): GuardState
      requires i < |ins|
      decreases i, 1
    {
      Shift(Before(i), Gap(i))
    }

    function At(i: nat): Decision
      requires i < |ins|
      decreases i, 2
    {
      Decide(Awake(i), ins[i], cfg)
    }

    predicate Does(i: nat, a: Action)
      requires i < |ins|
    {
      At(i).action == a
    }
  }

  // ---- one sweep ---------------------------------------------------------

  lemma Sweep(r: Run, i: nat)
    requires i < |r.ins|
    ensures r.Awake(i) == Shift(r.Before(i), r.Gap(i))
    ensures r.At(i) == Decide(r.Awake(i), r.ins[i], r.cfg)
    ensures r.Before(i + 1) == r.At(i).nextState
  {
  }

  /** What a sweep may do in each phase. */
  lemma Allowed(s: GuardState, inputs: Inputs, cfg: Config)
    ensures var d := Decide(s, inputs, cfg);
            && (d.action.Restart? ==> !cfg.AllOff() && (s.phase.Idle? || s.phase.AwaitHandoff?) && d.nextState.phase.AwaitReady?)
            && (d.action.RequestHandoff? ==> !cfg.AllOff() && (s.phase.Idle? || s.phase.AwaitHandoff?) && d.nextState.phase.AwaitHandoff?)
            && (d.action.InjectResume? ==> s.phase.AwaitReady? && d.nextState.phase.Cooldown?)
            && (d.nextState.phase.AwaitReady? ==> d.action.Restart? || (s.phase.AwaitReady? && d.action.NoAction? && d.nextState == s))
  {
  }

  lemma FromCooldown(s: GuardState, inputs: Inputs, cfg: Config)
    requires s.phase.Cooldown? && !cfg.AllOff()
    ensures var d := Decide(s, inputs, cfg);
            d.nextState == if inputs.nowMs >= s.cooldownUntilMs then INITIAL else s
  {
  }

  lemma FromAwaitReady(s: GuardState, inputs: Inputs, cfg: Config)
    requires s.phase.AwaitReady? && !cfg.AllOff()
    ensures var n := Decide(s, inputs, cfg).nextState;
            n == s || (n.phase.Cooldown? && n.cooldownUntilMs == inputs.nowMs + cfg.CooldownMs())
  {
  }

  // ---- restarts are spaced, and nothing happens before a cooldown ends ---

  /** Until `until`, the agent is between a restart and the end of the cooldown that follows it. */
  ghost predicate Held(r: Run, until: real, k: nat)
    requires 0 < k <= |r.ins|
  {
    var s, last := r.Before(k), r.ins[k - 1].nowMs;
    || (s.phase.AwaitReady? && last + r.cfg.CooldownMs() >= until)
    || (s.phase.Cooldown? && s.cooldownUntilMs >= until)
    || last >= until
  }

  lemma GapPositive(r: Run, i: nat)
    requires r.Valid() && i < |r.ins|
    ensures r.Gap(i) >= 0.0
  {
  }

  lemma HeldStep(r: Run, until: real, k: nat)
    requires r.Valid() && !r.cfg.AllOff() && 0 < k < |r.ins| && until > 0.0 && Held(r, until, k)
    ensures Held(r, until, k + 1)
  {
    hide Decide;
    GapPositive(r, k);
    Sweep(r, k);
    var s := r.Awake(k);
    assert r.ins[k - 1].nowMs <= r.ins[k].nowMs;
    if s.phase.AwaitReady? { FromAwaitReady(s, r.ins[k], r.cfg); }
    if s.phase.Cooldown? { FromCooldown(s, r.ins[k], r.cfg); }
  }

  lemma {:induction false} HeldOn(r: Run, until: real, k: nat, j: nat)
    requires r.Valid() && !r.cfg.AllOff() && 0 < k <= j < |r.ins| && until > 0.0 && Held(r, until, k)
    ensures Held(r, until, j)
    ensures r.Does(j, Restart) || r.Does(j, RequestHandoff) ==> r.ins[j].nowMs >= until
    decreases j - k
  {
    hide Decide;
    if k < j {
      HeldStep(r, until, k);
      HeldOn(r, until, k + 1, j);
    } else {
      Allowed(r.Awake(j), r.ins[j], r.cfg);
      assert r.ins[j - 1].nowMs <= r.ins[j].nowMs;
    }
  }

  /** Two restarts are at least a cooldown apart. */
  lemma RestartsApart(r: Run, i: nat, j: nat)
    requires r.Valid() && i < j < |r.ins| && r.Does(i, Restart) && r.Does(j, Restart)
    ensures r.ins[j].nowMs - r.ins[i].nowMs >= r.cfg.CooldownMs()
  {
    hide Decide;
    Allowed(r.Awake(i), r.ins[i], r.cfg);
    HeldOn(r, r.ins[i].nowMs + r.cfg.CooldownMs(), i + 1, j);
  }

  /** Once a cooldown has been entered, neither a handoff is requested nor a restart done before it ends. */
  lemma QuietCooldown(r: Run, i: nat, j: nat)
    requires r.Valid() && i < j < |r.ins| && r.Before(i + 1).phase.Cooldown?
    requires r.Does(j, Restart) || r.Does(j, RequestHandoff)
    ensures r.ins[j].nowMs >= r.Before(i + 1).cooldownUntilMs
  {
    hide Decide;
    var until := r.Before(i + 1).cooldownUntilMs;
    Allowed(r.Awake(j), r.ins[j], r.cfg);
    if until > 0.0 { HeldOn(r, until, i + 1, j); }
  }

  // ---- every resume prompt follows its own restart -----------------------

  ghost predicate RestartThenQuiet(r: Run, i: nat, m: nat)
    requires m <= |r.ins|
  {
    i < m && r.Does(i, Restart) && forall k :: i < k < m ==> r.Does(k, NoAction)
  }

  lemma {:induction false} ReadyAfterRestart(r: Run, m: nat)
    requires m <= |r.ins| && r.Before(m).phase.AwaitReady?
    ensures exists i :: RestartThenQuiet(r, i, m)
  {
    hide Decide;
    if m > 0 {
      Allowed(r.Awake(m - 1), r.ins[m - 1], r.cfg);
      if r.Does(m - 1, Restart) {
        assert RestartThenQuiet(r, m - 1, m);
      } else {
        ReadyAfterRestart(r, m - 1);
        var i :| RestartThenQuiet(r, i, m - 1);
        assert RestartThenQuiet(r, i, m);
      }
    }
  }

  /** A resume prompt is injected only after a restart, with nothing done in between: so it is the only one for that
      restart, and two of them always have a restart between them. */
  lemma InjectFollowsRestart(r: Run, m: nat)
    requires m < |r.ins| && r.Does(m, InjectResume)
    ensures exists i :: RestartThenQuiet(r, i, m)
  {
    hide Decide;
    Allowed(r.Awake(m), r.ins[m], r.cfg);
    ReadyAfterRestart(r, m);
  }

  lemma InjectsSeparated(r: Run, m: nat, n: nat)
    requires m < n < |r.ins| && r.Does(m, InjectResume) && r.Does(n, InjectResume)
    ensures exists i :: m < i < n && r.Does(i, Restart)
  {
    InjectFollowsRestart(r, n);
    var i: nat :| RestartThenQuiet(r, i, n);
    hide Decide;
    assert i >= m || r.Does(m, NoAction);
  }

  // ---- no live turn is cut -----------------------------------------------

  lemma BusyRestartInIdle(s: GuardState, inputs: Inputs, cfg: Config)
    requires DecideIdle(s, inputs, cfg).action.Restart? && inputs.paneBusy
    ensures cfg.saturationRestart && inputs.paneSaturated
  {
  }

  lemma BusyRestartAwaiting(s: GuardState, inputs: Inputs, cfg: Config)
    requires DecideAwaitHandoff(s, inputs, cfg).action.Restart? && inputs.paneBusy && !inputs.paneIdle
    ensures cfg.saturationRestart && inputs.paneSaturated
  {
  }

  /** A busy pane is restarted only when it is saturated, and then only by the saturation net. */
  lemma NoBusyRestart(r: Run, i: nat)
    requires r.Valid() && i < |r.ins| && r.Does(i, Restart) && r.ins[i].paneBusy
    ensures r.cfg.saturationRestart && r.ins[i].paneSaturated
  {
    var s, inputs := r.Awake(i), r.ins[i];
    hide DecideIdle;
    hide DecideAwaitHandoff;
    if s.phase.Idle? { BusyRestartInIdle(s, inputs, r.cfg); }
    if s.phase.AwaitHandoff? { BusyRestartAwaiting(s, inputs, r.cfg); }
  }

  // ---- saturation is confirmed by exactly two sweeps ---------------------

  /** The i-th sweep is in the idle phase and sees a running, saturated pane with the net armed. */
  predicate SeesSaturation(r: Run, i: nat)
    requires i < |r.ins|
  {
    r.Awake(i).phase.Idle? && r.ins[i].running && r.cfg.saturationRestart && r.ins[i].paneSaturated
  }

  lemma StreakStep(s: GuardState, inputs: Inputs, cfg: Config)
    requires s.saturatedStreak == 1 ==> s.phase.Idle?
    requires s.saturatedStreak <= 1
    ensures var d := Decide(s, inputs, cfg);
            var sees := s.phase.Idle? && inputs.running && cfg.saturationRestart && inputs.paneSaturated;
            && (d.nextState.saturatedStreak == 1 ==> d.nextState.phase.Idle?)
            && d.nextState.saturatedStreak <= 1
            && (d.nextState.saturatedStreak == 1 <==> sees && s.saturatedStreak == 0)
            && (sees ==> (d.action.Restart? <==> s.saturatedStreak == 1))
            && (sees && s.saturatedStreak == 1 ==> !d.nextState.phase.Idle?)
  {
  }

  lemma {:induction false} StreakCounts(r: Run, i: nat)
    requires i <= |r.ins|
    ensures r.Before(i).saturatedStreak <= 1
    ensures r.Before(i).saturatedStreak == 1 ==> r.Before(i).phase.Idle?
    ensures i > 0 && r.Before(i).phase.Idle? ==> (r.Before(i).saturatedStreak == 1 <==> SeesSaturation(r, i - 1))
    ensures i == 0 ==> r.Before(i).saturatedStreak == 0
  {
    hide Decide;
    if i > 0 {
      StreakCounts(r, i - 1);
      StreakStep(r.Awake(i - 1), r.ins[i - 1], r.cfg);
    }
  }

  /** In the idle phase a saturated pane is restarted exactly when the sweep before saw it saturated too: one sighting
      never restarts, the second consecutive one always does. */
  lemma SaturationNeedsTwo(r: Run, i: nat)
    requires i < |r.ins| && SeesSaturation(r, i)
    ensures r.Does(i, Restart) <==> i > 0 && SeesSaturation(r, i - 1)
  {
    hide Decide;
    StreakCounts(r, i);
    StreakStep(r.Awake(i), r.ins[i], r.cfg);
  }

  // ---- handoff progress --------------------------------------------------

  /** Sweep `k` asks for a handoff from the idle phase and sweeps k + 1 .. j all decide in await-handoff. */
  ghost predicate Awaits(r: Run, k: nat, j: nat)
    requires j < |r.ins|
  {
    && k < j && r.Awake(k).phase.Idle? && r.Does(k, RequestHandoff)
    && forall m :: k < m <= j ==> r.Awake(m).phase.AwaitHandoff?
  }

  lemma AwaitEntered(s: GuardState, inputs: Inputs, cfg: Config)
    requires Decide(s, inputs, cfg).nextState.phase.AwaitHandoff? && !s.phase.AwaitHandoff?
    ensures s.phase.Idle? && Decide(s, inputs, cfg).action.RequestHandoff?
  {
  }

  /** Every sweep in await-handoff belongs to a wait that one request from the idle phase began. */
  lemma {:induction false} EveryWaitBegan(r: Run, j: nat)
    requires j < |r.ins| && r.Awake(j).phase.AwaitHandoff?
    ensures exists k :: Awaits(r, k, j)
  {
    hide Decide;
    if j > 0 {
      Sweep(r, j - 1);
      Sweep(r, j);
      if r.Awake(j - 1).phase.AwaitHandoff? {
        EveryWaitBegan(r, j - 1);
        var k :| Awaits(r, k, j - 1);
        assert Awaits(r, k, j);
      } else {
        AwaitEntered(r.Awake(j - 1), r.ins[j - 1], r.cfg);
        assert Awaits(r, j - 1, j);
      }
    }
  }

  /** What the i-th sweep charges against a running deadline: the time since the sweep before, or one interval when that
      is so long that the machine must have slept. */
  function Charge(r: Run, i: nat): real
    requires 0 < i < |r.ins|
  {
    var elapsed := r.ins[i].nowMs - r.ins[i - 1].nowMs;
    if elapsed <= r.intervalMs * SLEEP_GAP_SWEEPS then elapsed else r.intervalMs
  }

  function Charged(r: Run, k: nat, j: nat): real
    requires k <= j < |r.ins|
    decreases j - k
  {
    if j == k then 0.0 else Charged(r, k, j - 1) + Charge(r, j)
  }

  lemma AwaitStep(s: GuardState, inputs: Inputs, cfg: Config)
    requires s.phase.AwaitHandoff?
    ensures var d := Decide(s, inputs, cfg); var n := d.nextState;
            && (d.action.RequestHandoff? ==> n.phase.AwaitHandoff? && HandoffIsNew(s, inputs) && n.handoffMtimeAtRequest == inputs.handoffMtime)
            && (n.phase.AwaitHandoff? ==> n.deadlineMs == s.deadlineMs)
            && (n.phase.AwaitHandoff? && !d.action.RequestHandoff? ==> n == s)
  {
  }

  lemma FirstRequest(s: GuardState, inputs: Inputs, cfg: Config)
    requires s.phase.Idle? && Decide(s, inputs, cfg).action.RequestHandoff?
    ensures var n := Decide(s, inputs, cfg).nextState;
            n.deadlineMs == inputs.nowMs + cfg.HandoffTimeoutMs() && n.handoffMtimeAtRequest == inputs.handoffMtime
  {
  }

  /** Refresh requests never move the deadline: it stands one timeout after the first request, counted in charges. */
  lemma {:induction false} DeadlineFixed(r: Run, k: nat, j: nat)
    requires r.Valid() && j < |r.ins| && Awaits(r, k, j)
    ensures r.Awake(j).deadlineMs > 0.0
    ensures r.Awake(j).deadlineMs == r.ins[j].nowMs - Charged(r, k, j) + r.cfg.HandoffTimeoutMs()
    decreases j - k
  {
    hide Decide;
    GapPositive(r, j);
    Sweep(r, j - 1);
    Sweep(r, j);
    if j == k + 1 {
      FirstRequest(r.Awake(k), r.ins[k], r.cfg);
      assert Charged(r, k, k) == 0.0;
    } else {
      DeadlineFixed(r, k, j - 1);
      AwaitStep(r.Awake(j - 1), r.ins[j - 1], r.cfg);
    }
    assert Charged(r, k, j) == Charged(r, k, j - 1) + Charge(r, j);
    assert r.Gap(j) + Charge(r, j) == r.ins[j].nowMs - r.ins[j - 1].nowMs;
  }

  lemma TimeoutReason(s: GuardState, inputs: Inputs, cfg: Config)
    requires s.phase.AwaitHandoff?
    ensures Decide(s, inputs, cfg).reason.HandoffTimeout? ==> inputs.nowMs >= s.deadlineMs
    ensures inputs.running && !inputs.paneBusy && inputs.nowMs >= s.deadlineMs ==>
            !Decide(s, inputs, cfg).nextState.phase.AwaitHandoff?
  {
  }

  /** A handoff times out only when the charges since its first request have reached the timeout; and the first
      running sweep with a pane that is not busy at which they have always leaves the phase. */
  lemma TimeoutIsCharged(r: Run, k: nat, j: nat)
    requires r.Valid() && j < |r.ins| && Awaits(r, k, j)
    ensures r.At(j).reason.HandoffTimeout? ==> Charged(r, k, j) >= r.cfg.HandoffTimeoutMs()
    ensures Charged(r, k, j) >= r.cfg.HandoffTimeoutMs() && r.ins[j].running && !r.ins[j].paneBusy ==>
            !r.Before(j + 1).phase.AwaitHandoff?
  {
    hide Decide;
    DeadlineFixed(r, k, j);
    TimeoutReason(r.Awake(j), r.ins[j], r.cfg);
  }

  /** Every request of one wait is recorded with a handoff strictly newer than any recorded before it. */
  lemma {:induction false} RequestsAdvance(r: Run, k: nat, a: nat, b: nat)
    requires b < |r.ins| && Awaits(r, k, b) && k <= a < b
    requires r.Does(a, RequestHandoff) && r.Does(b, RequestHandoff)
    ensures r.ins[b].handoffMtime.Some?
    ensures r.ins[a].handoffMtime.Some? ==> r.ins[a].handoffMtime.value < r.ins[b].handoffMtime.value
  {
    hide Decide;
    AwaitStep(r.Awake(b), r.ins[b], r.cfg);
    RecordedSince(r, k, a, b);
  }

  lemma {:induction false} RecordedSince(r: Run, k: nat, a: nat, b: nat)
    requires b < |r.ins| && Awaits(r, k, b) && k <= a < b && r.Does(a, RequestHandoff)
    ensures r.ins[a].handoffMtime.Some? ==>
            r.Awake(b).handoffMtimeAtRequest.Some? && r.ins[a].handoffMtime.value <= r.Awake(b).handoffMtimeAtRequest.value
    decreases b - a
  {
    hide Decide;
    Sweep(r, b - 1);
    Sweep(r, b);
    if b == a + 1 {
      if a == k { FirstRequest(r.Awake(a), r.ins[a], r.cfg); } else { AwaitStep(r.Awake(a), r.ins[a], r.cfg); }
    } else {
      RecordedSince(r, k, a, b - 1);
      AwaitStep(r.Awake(b - 1), r.ins[b - 1], r.cfg);
    }
  }

  // ---- the daily schedule ------------------------------------------------

  /** When the daily tier last asked for a handoff, as the runner remembers it. */
  function LastDaily(r: Run, i: nat): Option<real>
    requires i <= |r.ins|
  {
    if i == 0 then None else if r.At(i - 1).reason.DailyHandoff? then Some(r.ins[i - 1].nowMs) else LastDaily(r, i - 1)
  }

  /** The daily time of the day has come, given as `dueAt` of the clock, and the tier has not asked since. */
  predicate DailyDue(cfg: Config, last: Option<real>, nowMs: real, dueAt: real -> real) {
    && cfg.dailyHandoffEnabled && cfg.dailyHandoffTime.Some?
    && nowMs >= dueAt(nowMs) && !(last.Some? && last.value >= dueAt(nowMs))
  }

  /** The daily tier is told what the wall clock says. */
  ghost predicate Scheduled(r: Run, dueAt: real -> real) {
    forall i :: 0 <= i < |r.ins| ==> r.ins[i].dailyHandoffDue == DailyDue(r.cfg, LastDaily(r, i), r.ins[i].nowMs, dueAt)
  }

  // ---- a whole run with and without a sleep ------------------------------

  /** Runs `r` and `t` are the same but for a sleep before sweep `k` of `t`: up to it they see the same, from it on the clock
      of `t` and all that was written since the sleep began are later by its length. */
  ghost predicate Twins(r: Run, t: Run, k: nat, z: Sleep) {
    && t.cfg == r.cfg && t.intervalMs == r.intervalMs && |t.ins| == |r.ins|
    && (forall i :: 0 <= i < k < |r.ins| ==> t.ins[i] == r.ins[i])
    && (forall i :: k <= i < |r.ins| ==> t.ins[i] == Woken(r.ins[i], z, t.ins[i].dailyHandoffDue))
  }

  /** The sleep is long enough to be noticed, begins after sweep `k - 1` and after the handoff that is recorded, and sweep `k`
      of the sleepless run lies one interval behind the sweep before it. */
  ghost predicate SleepFits(r: Run, k: nat, z: Sleep) {
    && r.Valid() && 0 < k < |r.ins| && z.length > (SLEEP_GAP_SWEEPS - 1.0) * r.intervalMs
    && r.ins[k].nowMs - r.ins[k - 1].nowMs == r.intervalMs
    && r.ins[k - 1].nowMs <= z.at < r.ins[k].nowMs
    && (r.Before(k).handoffMtimeAtRequest.Some? ==> r.Before(k).handoffMtimeAtRequest.value <= z.at)
  }

  lemma {:induction false} SameBefore(r: Run, t: Run, k: nat, z: Sleep, i: nat)
    requires Twins(r, t, k, z) && i <= k < |r.ins|
    ensures t.Before(i) == r.Before(i)
    ensures i < k ==> t.At(i) == r.At(i)
  {
    hide Decide, Woken;
    if i > 0 { SameBefore(r, t, k, z, i - 1); }
  }

  lemma CarryTwice(s: GuardState, z: Sleep, gapMs: real)
    requires z.length >= 0.0 && gapMs >= 0.0
    ensures Shift(Carry(s, z), gapMs) == Carry(Shift(s, gapMs), z)
  {
  }

  /** Sweep `i` does the same in both runs and leaves the moved form of the same state. */
  ghost predicate Acts(r: Run, t: Run, k: nat, z: Sleep, i: nat)
    requires i < |r.ins| == |t.ins|
  {
    if i < k then t.At(i) == r.At(i) else SameDone(r.At(i), t.At(i), z)
  }

  /** And for the same reason. */
  ghost predicate Alike(r: Run, t: Run, k: nat, z: Sleep, i: nat)
    requires i < |r.ins| == |t.ins|
  {
    if i < k then t.At(i) == r.At(i) else t.At(i) == Carried(r.At(i), z)
  }

  lemma SleptAwake(r: Run, t: Run, k: nat, z: Sleep, i: nat)
    requires SleepFits(r, k, z) && Twins(r, t, k, z) && k <= i < |r.ins| && (i > k ==> Acts(r, t, k, z, i - 1))
    ensures t.Awake(i) == Carry(r.Awake(i), z)
  {
    hide Decide, Run.At;
    assert t.ins[i].nowMs == r.ins[i].nowMs + z.length;
    if i == k {
      SameBefore(r, t, k, z, k);
    } else {
      assert t.Gap(i) == r.Gap(i);
      GapPositive(r, i);
      CarryTwice(r.Before(i), z, r.Gap(i));
      Sweep(r, i - 1);
      Sweep(t, i - 1);
      hide Shift, Carry;
    }
  }

  lemma SleptSweep(r: Run, t: Run, k: nat, z: Sleep, i: nat)
    requires SleepFits(r, k, z) && Twins(r, t, k, z) && k <= i < |r.ins| && (i > k ==> Acts(r, t, k, z, i - 1))
    ensures Acts(r, t, k, z, i) <==> !Shows(r.Awake(i), r.ins[i], r.cfg, z, t.ins[i].dailyHandoffDue)
    ensures Alike(r, t, k, z, i) <==> !ShowsInReason(r.Awake(i), r.ins[i], r.cfg, z, t.ins[i].dailyHandoffDue)
    ensures Acts(r, t, k, z, i) ==> (t.At(i).reason.DailyHandoff? <==> r.At(i).reason.DailyHandoff?)
  {
    SleptAwake(r, t, k, z, i);
    SleepInvisibleIff(r.Awake(i), r.ins[i], r.cfg, z, t.ins[i].dailyHandoffDue);
    Sweep(r, i);
    Sweep(t, i);
    hide Decide, Shows, ShowsInReason, Carry, Woken, Carried, SameDone;
    if Acts(r, t, k, z, i) { DailyKept(r.Awake(i), r.ins[i], r.cfg, z, t.ins[i].dailyHandoffDue); }
  }

  // ---- the schedule after a sleep ----------------------------------------

  lemma {:induction false} DailyStamp(r: Run, i: nat)
    requires r.Valid() && i <= |r.ins|
    ensures LastDaily(r, i).Some? ==> i > 0 && LastDaily(r, i).value <= r.ins[i - 1].nowMs
  {
    hide Decide;
    if i > 0 {
      DailyStamp(r, i - 1);
      assert i > 1 ==> r.ins[i - 2].nowMs <= r.ins[i - 1].nowMs;
    }
  }

  /** The daily tier last asked in the same sweep of both runs. */
  lemma {:induction false} SameDaily(r: Run, t: Run, k: nat, z: Sleep, i: nat)
    requires SleepFits(r, k, z) && Twins(r, t, k, z) && i <= |r.ins|
    requires forall j :: 0 <= j < i ==> Acts(r, t, k, z, j)
    ensures LastDaily(t, i) == MoveStamp(LastDaily(r, i), z)
  {
    hide Decide, Shows, ShowsInReason, Carry, SameDone;
    if i > 0 {
      SameDaily(r, t, k, z, i - 1);
      if i - 1 < k {
        SameBefore(r, t, k, z, i - 1);
        DailyStamp(r, i);
        assert r.ins[i - 1].nowMs <= r.ins[k - 1].nowMs;
      } else {
        SleptSweep(r, t, k, z, i - 1);
        assert r.ins[k].nowMs <= r.ins[i - 1].nowMs;
      }
    }
  }

  /** What the daily tier is told in sweep `i` of the slept run, if it did the same as the sleepless one so far. */
  predicate LateDue(r: Run, z: Sleep, dueAt: real -> real, i: nat)
    requires i < |r.ins|
  {
    DailyDue(r.cfg, MoveStamp(LastDaily(r, i), z), r.ins[i].nowMs + z.length, dueAt)
  }

  /** The sleep shows in sweep `i` of the sleepless run, or does in the reason it gives. */
  predicate ShowsAt(r: Run, z: Sleep, dueAt: real -> real, i: nat)
    requires i < |r.ins|
  {
    Shows(r.Awake(i), r.ins[i], r.cfg, z, LateDue(r, z, dueAt, i))
  }

  predicate ShowsInReasonAt(r: Run, z: Sleep, dueAt: real -> real, i: nat)
    requires i < |r.ins|
  {
    ShowsInReason(r.Awake(i), r.ins[i], r.cfg, z, LateDue(r, z, dueAt, i))
  }

  lemma DueLater(r: Run, t: Run, k: nat, z: Sleep, dueAt: real -> real, i: nat)
    requires SleepFits(r, k, z) && Twins(r, t, k, z) && Scheduled(t, dueAt) && k <= i < |r.ins| == |t.ins|
    requires forall j :: 0 <= j < i ==> Acts(r, t, k, z, j)
    ensures t.ins[i].dailyHandoffDue == LateDue(r, z, dueAt, i)
  {
    hide *;
    SameDaily(r, t, k, z, i);
    TwinClock(r, t, k, z, i);
    ScheduledAt(t, dueAt, i);
    LateMeans(r, z, dueAt, i);
  }

  lemma TwinClock(r: Run, t: Run, k: nat, z: Sleep, i: nat)
    requires Twins(r, t, k, z) && k <= i < |r.ins|
    ensures t.cfg == r.cfg && i < |t.ins| && t.ins[i].nowMs == r.ins[i].nowMs + z.length
  {
  }

  lemma LateMeans(r: Run, z: Sleep, dueAt: real -> real, i: nat)
    requires i < |r.ins|
    ensures LateDue(r, z, dueAt, i) == DailyDue(r.cfg, MoveStamp(LastDaily(r, i), z), r.ins[i].nowMs + z.length, dueAt)
  {
    hide DailyDue, LastDaily, MoveStamp;
  }

  lemma ScheduledAt(r: Run, dueAt: real -> real, i: nat)
    requires Scheduled(r, dueAt) && i < |r.ins|
    ensures r.ins[i].dailyHandoffDue == DailyDue(r.cfg, LastDaily(r, i), r.ins[i].nowMs, dueAt)
  {
    hide LastDaily, DailyDue;
  }

  lemma ScheduledSweep(r: Run, t: Run, k: nat, z: Sleep, dueAt: real -> real, i: nat)
    requires SleepFits(r, k, z) && Twins(r, t, k, z) && Scheduled(t, dueAt) && k <= i < |r.ins| == |t.ins|
    requires forall j :: 0 <= j < i ==> Acts(r, t, k, z, j)
    ensures Acts(r, t, k, z, i) <==> !ShowsAt(r, z, dueAt, i)
    ensures Alike(r, t, k, z, i) <==> !ShowsInReasonAt(r, z, dueAt, i)
  {
    hide *;
    DueLater(r, t, k, z, dueAt, i);
    SleptSweep(r, t, k, z, i);
    AtMeans(r, z, dueAt, i);
  }

  lemma AtMeans(r: Run, z: Sleep, dueAt: real -> real, i: nat)
    requires i < |r.ins|
    ensures ShowsAt(r, z, dueAt, i) <==> Shows(r.Awake(i), r.ins[i], r.cfg, z, LateDue(r, z, dueAt, i))
    ensures ShowsInReasonAt(r, z, dueAt, i) <==> ShowsInReason(r.Awake(i), r.ins[i], r.cfg, z, LateDue(r, z, dueAt, i))
  {
    hide Shows, ShowsInReason, LateDue, Run.Awake;
  }

  lemma {:induction false} SleptRun(r: Run, t: Run, k: nat, z: Sleep, dueAt: real -> real, n: nat)
    requires SleepFits(r, k, z) && Twins(r, t, k, z) && Scheduled(t, dueAt) && n <= |r.ins| == |t.ins|
    requires forall j :: k <= j < n ==> !ShowsAt(r, z, dueAt, j)
    ensures forall j :: 0 <= j < n ==> Acts(r, t, k, z, j)
  {
    hide *;
    if n > 0 {
      SleptRun(r, t, k, z, dueAt, n - 1);
      if n - 1 < k {
        AlikeBefore(r, t, k, z, n - 1);
        AlikeActs(r, t, k, z, n - 1);
      } else {
        ScheduledSweep(r, t, k, z, dueAt, n - 1);
      }
    }
  }

  /** Exactly when a sleep shows in a whole run. Both runs do the same at the same sweeps, in every phase and tier and however
      long the machine slept, unless after the sleep a session seen idle is carried across the quiet period or across the
      daily time, or a restart finds a handoff from before the sleep and work from after it. They also give the same
      reasons unless one of these happens to a session idle or not, or to a handoff that is asked for again. */
  lemma SleepChangesNoRun(r: Run, t: Run, k: nat, z: Sleep, dueAt: real -> real)
    requires SleepFits(r, k, z) && Twins(r, t, k, z) && Scheduled(r, dueAt) && Scheduled(t, dueAt)
    ensures (forall i :: 0 <= i < |r.ins| ==> Acts(r, t, k, z, i)) <==>
            forall i :: k <= i < |r.ins| ==> !ShowsAt(r, z, dueAt, i)
    ensures (forall i :: 0 <= i < |r.ins| ==> Alike(r, t, k, z, i)) <==>
            forall i :: k <= i < |r.ins| ==> !ShowsInReasonAt(r, z, dueAt, i)
  {
    hide Decide, ShowsAt, ShowsInReasonAt, Acts, Alike, Carry;
    if forall i :: k <= i < |r.ins| ==> !ShowsAt(r, z, dueAt, i) {
      SleptRun(r, t, k, z, dueAt, |r.ins|);
    }
    if forall i :: 0 <= i < |r.ins| ==> Acts(r, t, k, z, i) {
      forall i | k <= i < |r.ins| ensures !ShowsAt(r, z, dueAt, i) { ScheduledSweep(r, t, k, z, dueAt, i); }
    }
    ReasonsIff(r, t, k, z, dueAt);
  }

  lemma AlikeActs(r: Run, t: Run, k: nat, z: Sleep, i: nat)
    requires i < |r.ins| == |t.ins| && Alike(r, t, k, z, i)
    ensures Acts(r, t, k, z, i)
  {
    hide Decide, Carry;
  }

  lemma ReasonShows(r: Run, z: Sleep, dueAt: real -> real, i: nat)
    requires i < |r.ins| && ShowsAt(r, z, dueAt, i)
    ensures ShowsInReasonAt(r, z, dueAt, i)
  {
    hide Decide, TierReached, StaleShows;
  }

  lemma ReasonsIff(r: Run, t: Run, k: nat, z: Sleep, dueAt: real -> real)
    requires SleepFits(r, k, z) && Twins(r, t, k, z) && Scheduled(t, dueAt)
    ensures (forall i :: 0 <= i < |r.ins| ==> Alike(r, t, k, z, i)) <==>
            forall i :: k <= i < |r.ins| ==> !ShowsInReasonAt(r, z, dueAt, i)
  {
    hide Decide, ShowsAt, ShowsInReasonAt, Acts, Alike, Carry;
    if forall i :: k <= i < |r.ins| ==> !ShowsInReasonAt(r, z, dueAt, i) {
      forall i | k <= i < |r.ins| ensures !ShowsAt(r, z, dueAt, i) {
        if ShowsAt(r, z, dueAt, i) { ReasonShows(r, z, dueAt, i); }
      }
      SleptRun(r, t, k, z, dueAt, |r.ins|);
      forall i | 0 <= i < |r.ins| ensures Alike(r, t, k, z, i) {
        if i < k { AlikeBefore(r, t, k, z, i); } else { ScheduledSweep(r, t, k, z, dueAt, i); }
      }
    }
    if forall i :: 0 <= i < |r.ins| ==> Alike(r, t, k, z, i) {
      forall i | 0 <= i < |r.ins| ensures Acts(r, t, k, z, i) { AlikeActs(r, t, k, z, i); }
      forall i | k <= i < |r.ins| ensures !ShowsInReasonAt(r, z, dueAt, i) { ScheduledSweep(r, t, k, z, dueAt, i); }
    }
  }

  lemma AlikeBefore(r: Run, t: Run, k: nat, z: Sleep, i: nat)
    requires SleepFits(r, k, z) && Twins(r, t, k, z) && i < k
    ensures |t.ins| == |r.ins| && i < |r.ins| && Alike(r, t, k, z, i)
  {
    hide Decide, Woken;
    SameBefore(r, t, k, z, i);
  }
}
