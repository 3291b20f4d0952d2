/** The gate that decides when a running session may be cleared: src/context-restart-gate.ts. Times in milliseconds. */
module RestartGate {
  import opened Options

  datatype Config = Config(enabled: bool, thresholdTokens: int, staleCutoffMs: int, persistentBlockAlertMs: int,
                           childCheckFallbackAfterMs: int, forceRestartAfterMs: int)

  datatype Pane = PaneIdle | PaneBusy | PaneTyping | PaneUnknown | PaneError

  datatype Phase = GuardIdle | GuardCooldown | GuardAwaitHandoff | GuardAwaitReady

  /** `None` is a signal that could not be measured. */
  datatype Inputs = Inputs(
    now: int, tokens: Option<int>, pane: Option<Pane>, usageLimited: bool, phase: Phase, pendingOutbound: nat,
    staleOutbound: bool, children: Option<bool>, openQuestion: bool, liveTask: bool)

  datatype Action = Allow | Block | BlockAlert

  datatype Reason =
    | GateDisabled | TokensUnmeasurable | BelowThreshold | HardGuardArmed | PaneNotCapturable | PaneMidTurn
    | UsageLimited | PaneUnclear | ChildCheckFailed | LiveChildren | PendingOutbound | OpenQuestion | LiveTask
    | Clear | ChildCheckPassthrough

  datatype Decision = Decision(action: Action, reason: Reason, noteStale: bool)

  function BlockedFor(since: Option<int>, now: int): int {
    if since.Some? then now - since.value else 0
  }

  function Blocked(since: Option<int>, now: int, cfg: Config, reason: Reason): Decision {
    Decision(if BlockedFor(since, now) >= cfg.persistentBlockAlertMs then BlockAlert else Block, reason, false)
  }

  function DecideGate(x: Inputs, cfg: Config, since: Option<int>): Decision {
    if !cfg.enabled then Decision(Block, GateDisabled, false)
    else if x.tokens.None? then Blocked(since, x.now, cfg, TokensUnmeasurable)
    else if x.tokens.value < cfg.thresholdTokens then Decision(Block, BelowThreshold, false)
    else if x.phase.GuardAwaitHandoff? || x.phase.GuardAwaitReady? then Blocked(since, x.now, cfg, HardGuardArmed)
    else if x.pane.None? then Blocked(since, x.now, cfg, PaneNotCapturable)
    else if x.pane.value.PaneBusy? || x.pane.value.PaneTyping? then Blocked(since, x.now, cfg, PaneMidTurn)
    else if x.usageLimited then Blocked(since, x.now, cfg, UsageLimited)
    else if x.pane.value.PaneUnknown? || x.pane.value.PaneError? then Blocked(since, x.now, cfg, PaneUnclear)
    else if x.children.None? && BlockedFor(since, x.now) < cfg.childCheckFallbackAfterMs then
      Blocked(since, x.now, cfg, ChildCheckFailed)
    else if x.children == Some(true) then Blocked(since, x.now, cfg, LiveChildren)
    else if x.pendingOutbound > 0 then Blocked(since, x.now, cfg, PendingOutbound)
    else if x.openQuestion then Blocked(since, x.now, cfg, OpenQuestion)
    else if x.liveTask then Blocked(since, x.now, cfg, LiveTask)
    else Decision(Allow, if x.children.None? then ChildCheckPassthrough else Clear, x.staleOutbound)
  }

  function ShouldForceRestart(x: Inputs, cfg: Config, since: Option<int>): bool {
    && since.Some?
    && x.now - since.value >= cfg.forceRestartAfterMs
    && x.pane == Some(PaneIdle)
    && x.children == Some(false)
    && x.pendingOutbound == 0
    && !x.openQuestion
    && !x.liveTask
  }

  // ---- one decision ------------------------------------------------------

  /** false, then unmeasurable, then true: how much a child check speaks against clearing. */
  function ChildWeight(children: Option<bool>): nat {
    if children.None? then 1 else if children.value then 2 else 0
  }

  /** `a` shows no more live work than `b`, everything else alike. */
  predicate Calmer(a: Inputs, b: Inputs) {
    && a == b.(children := a.children, pendingOutbound := a.pendingOutbound, openQuestion := a.openQuestion, liveTask := a.liveTask,
               pane := a.pane, usageLimited := a.usageLimited, staleOutbound := a.staleOutbound)
    && ChildWeight(a.children) <= ChildWeight(b.children)
    && a.pendingOutbound <= b.pendingOutbound
    && (a.openQuestion ==> b.openQuestion) && (a.liveTask ==> b.liveTask) && (a.usageLimited ==> b.usageLimited)
    && (a.pane == b.pane || a.pane == Some(PaneIdle))
  }

  /** More live work, or less certainty, never opens the gate; nor does a longer streak ever close it. */
  lemma AllowAntitone(a: Inputs, b: Inputs, cfg: Config, since: Option<int>, earlier: Option<int>)
    requires Calmer(a, b) && BlockedFor(since, b.now) <= BlockedFor(earlier, b.now)
    requires DecideGate(b, cfg, since).action == Allow
    ensures DecideGate(a, cfg, earlier).action == Allow
  {
  }

  /** What a clear, allowed or forced, may cut off: never a turn, a known child, a dispatched message, an open question or
      a task. An unmeasured child check passes only the ordinary gate, and only after the fallback window. */
  lemma NothingCutOff(x: Inputs, cfg: Config, since: Option<int>)
    requires DecideGate(x, cfg, since).action == Allow || ShouldForceRestart(x, cfg, since)
    ensures x.pane == Some(PaneIdle) && x.pendingOutbound == 0 && !x.openQuestion && !x.liveTask && x.children != Some(true)
    ensures x.children.None? ==> BlockedFor(since, x.now) >= cfg.childCheckFallbackAfterMs
    ensures x.children.None? ==> !ShouldForceRestart(x, cfg, since)
  {
  }

  /** Where a restart would be forced, an enabled gate over the threshold blocks for three reasons only: forcing overrides
      an unmeasurable context, an armed hard guard or a usage limit, and nothing else. */
  lemma ForcedOverrides(x: Inputs, cfg: Config, since: Option<int>)
    requires cfg.enabled && (x.tokens.None? || x.tokens.value >= cfg.thresholdTokens) && ShouldForceRestart(x, cfg, since)
    ensures var d := DecideGate(x, cfg, since);
            && (d.action != Allow <==> x.tokens.None? || x.phase.GuardAwaitHandoff? || x.phase.GuardAwaitReady? || x.usageLimited)
            && (d.action != Allow <==> d.reason in {TokensUnmeasurable, HardGuardArmed, UsageLimited})
  {
  }

  // ---- the streak --------------------------------------------------------

  const SESSION_START_TOLERANCE_MS := 60000

  datatype RunState = RunState(firstBlockedAt: Option<int>, lastAlertAt: Option<int>, lastClearAt: Option<int>)

  predicate PreviousSession(since: Option<int>, sessionStart: Option<int>) {
    since.Some? && sessionStart.Some? && since.value < sessionStart.value - SESSION_START_TOLERANCE_MS
  }

  function ResetIfPreviousSession(s: RunState, sessionStart: Option<int>): RunState {
    if PreviousSession(s.firstBlockedAt, sessionStart) then s.(firstBlockedAt := None, lastAlertAt := None) else s
  }

  function ResetIfBelow(s: RunState, tokens: Option<int>, threshold: int): RunState {
    if tokens.None? || tokens.value >= threshold then s
    else if s.firstBlockedAt.None? && s.lastAlertAt.None? then s
    else s.(firstBlockedAt := None, lastAlertAt := None)
  }

  function Reset(s: RunState, x: Inputs, sessionStart: Option<int>, cfg: Config): RunState {
    ResetIfBelow(ResetIfPreviousSession(s, sessionStart), x.tokens, cfg.thresholdTokens)
  }

  /** The two resets can be applied in either order, and applying them again changes nothing. */
  lemma ResetsCommute(s: RunState, x: Inputs, sessionStart: Option<int>, cfg: Config)
    ensures Reset(s, x, sessionStart, cfg) ==
            ResetIfPreviousSession(ResetIfBelow(s, x.tokens, cfg.thresholdTokens), sessionStart)
    ensures Reset(Reset(s, x, sessionStart, cfg), x, sessionStart, cfg) == Reset(s, x, sessionStart, cfg)
    ensures ResetIfPreviousSession(Reset(s, x, sessionStart, cfg), sessionStart) == Reset(s, x, sessionStart, cfg)
  {
  }

  /** A session whose start is known and that is younger than the alert time less the tolerance never raises the alert,
      whatever streak was stored before it. The bound is exact: at that age an old enough streak does raise it. */
  lemma YoungSessionIsQuiet(s: RunState, x: Inputs, start: int, cfg: Config)
    requires cfg.persistentBlockAlertMs > 0
    requires x.now - start < cfg.persistentBlockAlertMs - SESSION_START_TOLERANCE_MS
    ensures DecideGate(x, cfg, Reset(s, x, Some(start), cfg).firstBlockedAt).action != BlockAlert
  {
  }

  lemma YoungSessionBound(s: RunState, x: Inputs, start: int, cfg: Config)
    requires cfg.enabled && cfg.persistentBlockAlertMs > 0 && x.tokens.None?
    requires s.firstBlockedAt == Some(start - SESSION_START_TOLERANCE_MS)
    ensures DecideGate(x, cfg, Reset(s, x, Some(start), cfg).firstBlockedAt).action == BlockAlert <==>
            x.now - start >= cfg.persistentBlockAlertMs - SESSION_START_TOLERANCE_MS
  {
  }

  // ---- one sweep ---------------------------------------------------------

  /** Dispatched messages without an answer, and whether there are stale ones besides. */
  datatype Dispatched = Dispatched(count: nat, stale: bool)

  /** What the runner measures; `None` is a lookup that threw, or a signal that could not be measured. */
  datatype Signals = Signals(
    now: int, tokens: Option<int>, pane: Option<Pane>, usageLimited: bool, phase: Phase, dispatched: Option<Dispatched>,
    children: Option<bool>, question: Option<bool>, liveTask: bool)

  /** What the gate is told: a failed count of messages is one message, a failed question lookup is no question. */
  function Gathered(g: Signals): Inputs {
    Inputs(g.now, g.tokens, g.pane, g.usageLimited, g.phase,
           if g.dispatched.None? then 1 else g.dispatched.value.count, g.dispatched.Some? && g.dispatched.value.stale,
           g.children, g.question == Some(true), g.liveTask)
  }

  /** What the runner sees of one sweep, and what becomes of its sends and of its writes to the stored state: the write of a
      reset, the write after a forced clear and its notice, and the one write of every other branch. */
  datatype Sweep = Sweep(
    seen: Signals, sessionStart: Option<int>, resetSaved: bool,
    clearSent: bool, noticeSent: bool, forceSaved: bool, alertSent: bool, saved: bool)
  {
    function Inputs(): Inputs { Gathered(seen) }
  }

  /** `action` is None when the sweep ended at the failed write of a reset. */
  datatype Outcome = Outcome(
    state: RunState, action: Option<Action>, cleared: bool, forced: bool, alerted: bool, clearRecorded: bool, alertRecorded: bool)

  function AlertDue(s: RunState, now: int, cfg: Config): bool {
    s.lastAlertAt.None? || now - s.lastAlertAt.value >= cfg.persistentBlockAlertMs
  }

  function Quiet(s: RunState, action: Option<Action>): Outcome {
    Outcome(s, action, false, false, false, false, false)
  }

  /** The alert goes out first and is recorded after it. */
  function Alerting(s: RunState, w: Sweep, cfg: Config, forced: bool): Outcome {
    var sent := AlertDue(s, w.seen.now, cfg) && w.alertSent;
    var since := if s.firstBlockedAt.Some? then s.firstBlockedAt else Some(w.seen.now);
    Outcome(if sent && w.saved then s.(firstBlockedAt := since, lastAlertAt := Some(w.seen.now)) else s,
            Some(BlockAlert), forced, forced, sent, false, sent && w.saved)
  }

  function Check(stored: RunState, w: Sweep, cfg: Config): Outcome {
    var s, now := Reset(stored, w.Inputs(), w.sessionStart, cfg), w.seen.now;
    if !cfg.enabled then Quiet(stored, Some(Block))
    else if s != stored && !w.resetSaved then Quiet(stored, None)
    else
      match DecideGate(w.Inputs(), cfg, s.firstBlockedAt).action
      case Allow =>
        Outcome(if w.clearSent && w.saved then s.(firstBlockedAt := None, lastClearAt := Some(now)) else s,
                Some(Allow), w.clearSent, false, false, w.clearSent && w.saved, false)
      case BlockAlert =>
        if !ShouldForceRestart(w.Inputs(), cfg, s.firstBlockedAt) || !w.clearSent then Alerting(s, w, cfg, false)
        else if w.noticeSent && w.forceSaved then
          Outcome(s.(firstBlockedAt := None, lastAlertAt := Some(now), lastClearAt := Some(now)),
                  Some(BlockAlert), true, true, false, true, false)
        else Alerting(s, w, cfg, true)
      case Block =>
        var starts := s.firstBlockedAt.None? && w.seen.tokens.Some? && w.seen.tokens.value >= cfg.thresholdTokens;
        Quiet(if starts && w.saved then s.(firstBlockedAt := Some(now)) else s, Some(Block))
  }

  // ---- runs --------------------------------------------------------------

  function StateAt(start: RunState, ws: seq<Sweep>, cfg: Config, k: nat): RunState
    requires k <= |ws|
  {
    if k == 0 then start else Check(StateAt(start, ws, cfg, k - 1), ws[k - 1], cfg).state
  }

  function At(start: RunState, ws: seq<Sweep>, cfg: Config, k: nat): Outcome
    requires k < |ws|
  {
    Check(StateAt(start, ws, cfg, k), ws[k], cfg)
  }

  ghost predicate Clocked(ws: seq<Sweep>) {
    forall i, j :: 0 <= i < j < |ws| ==> ws[i].seen.now <= ws[j].seen.now
  }

  /** Whatever is stored since time `t`: an alert at or after it, or no streak from before it. */
  predicate SettledSince(s: RunState, t: int) {
    (s.lastAlertAt.Some? && s.lastAlertAt.value >= t) || s.firstBlockedAt.None? || s.firstBlockedAt.value >= t
  }

  lemma SettledStays(s: RunState, w: Sweep, cfg: Config, t: int)
    requires SettledSince(s, t) && t <= w.seen.now
    ensures SettledSince(Check(s, w, cfg).state, t)
    ensures cfg.persistentBlockAlertMs > 0 && Check(s, w, cfg).alerted ==> w.seen.now - t >= cfg.persistentBlockAlertMs
  {
    hide ShouldForceRestart;
  }

  lemma AlertSettles(s: RunState, w: Sweep, cfg: Config)
    requires Check(s, w, cfg).alertRecorded
    ensures SettledSince(Check(s, w, cfg).state, w.seen.now) && Check(s, w, cfg).alerted
  {
    hide ShouldForceRestart, DecideGate, Reset;
  }

  lemma {:induction false} SettledRun(start: RunState, ws: seq<Sweep>, cfg: Config, k: nat, t: int)
    requires k <= |ws| && SettledSince(start, t) && forall m :: 0 <= m < k ==> t <= ws[m].seen.now
    ensures SettledSince(StateAt(start, ws, cfg, k), t)
  {
    hide Check, SettledSince;
    if k > 0 {
      SettledRun(start, ws, cfg, k - 1, t);
      SettledStays(StateAt(start, ws, cfg, k - 1), ws[k - 1], cfg, t);
    }
  }

  lemma {:induction false} SettledFrom(start: RunState, ws: seq<Sweep>, cfg: Config, i: nat, k: nat)
    requires i < k <= |ws| && Clocked(ws) && At(start, ws, cfg, i).alertRecorded
    ensures SettledSince(StateAt(start, ws, cfg, k), ws[i].seen.now)
  {
    hide Check, SettledSince, StateAt;
    StateNext(start, ws, cfg, k - 1);
    if k == i + 1 { AlertSettles(StateAt(start, ws, cfg, i), ws[i], cfg); }
    else {
      SettledFrom(start, ws, cfg, i, k - 1);
      SettledStays(StateAt(start, ws, cfg, k - 1), ws[k - 1], cfg, ws[i].seen.now);
    }
  }

  lemma StateNext(start: RunState, ws: seq<Sweep>, cfg: Config, k: nat)
    requires k < |ws|
    ensures StateAt(start, ws, cfg, k + 1) == At(start, ws, cfg, k).state
  {
    hide Check;
  }

  /** An alert comes at least the alert time after any earlier alert that was recorded, whatever resets, restarts, clears and
      failures fall between them. */
  lemma AlertsApart(start: RunState, ws: seq<Sweep>, cfg: Config, i: nat, j: nat)
    requires i < j < |ws| && Clocked(ws) && cfg.persistentBlockAlertMs > 0
    requires At(start, ws, cfg, i).alertRecorded && At(start, ws, cfg, j).alerted
    ensures ws[j].seen.now - ws[i].seen.now >= cfg.persistentBlockAlertMs
  {
    hide Check, SettledSince, StateAt;
    SettledFrom(start, ws, cfg, i, j);
    SettledStays(StateAt(start, ws, cfg, j), ws[j], cfg, ws[i].seen.now);
  }

  /** An alert that went out and was not recorded goes out again in the next like sweep, at once. */
  lemma UnrecordedAlertRepeats(s: RunState, w: Sweep, cfg: Config)
    requires Check(s, w, cfg).alerted && !Check(s, w, cfg).alertRecorded
    ensures Check(Check(s, w, cfg).state, w, cfg).alerted
  {
    ResetsCommute(s, w.Inputs(), w.sessionStart, cfg);
    hide ShouldForceRestart, DecideGate, Reset;
  }

  /** From `start` on, no run that goes on from time `t` alerts before the alert time has passed. */
  ghost predicate NoAlertSoon(start: RunState, t: int, cfg: Config) {
    forall ws: seq<Sweep>, j: nat ::
      j < |ws| && Clocked(ws) && ws[0].seen.now >= t && At(start, ws, cfg, j).alerted ==> ws[j].seen.now - t >= cfg.persistentBlockAlertMs
  }

  lemma AlertRecordedIff(s: RunState, w: Sweep, cfg: Config)
    requires Check(s, w, cfg).alerted
    ensures Check(s, w, cfg).alertRecorded <==> w.saved
  {
    hide DecideGate, ShouldForceRestart, Reset;
  }

  /** The exact condition: after an alert the alert time is kept exactly when the write that follows the send goes through. */
  lemma AlertsApartIff(s: RunState, w: Sweep, cfg: Config)
    requires cfg.persistentBlockAlertMs > 0 && Check(s, w, cfg).alerted
    ensures w.saved <==> NoAlertSoon(Check(s, w, cfg).state, w.seen.now, cfg)
  {
    var next, t := Check(s, w, cfg).state, w.seen.now;
    AlertRecordedIff(s, w, cfg);
    hide Check, SettledSince;
    if Check(s, w, cfg).alertRecorded {
      AlertSettles(s, w, cfg);
      forall ws: seq<Sweep>, j: nat | j < |ws| && Clocked(ws) && ws[0].seen.now >= t && At(next, ws, cfg, j).alerted
        ensures ws[j].seen.now - t >= cfg.persistentBlockAlertMs
      {
        SettledRun(next, ws, cfg, j, t);
        SettledStays(StateAt(next, ws, cfg, j), ws[j], cfg, t);
      }
    } else {
      UnrecordedAlertRepeats(s, w, cfg);
      assert At(next, [w], cfg, 0).alerted;
    }
  }

  // ---- forced clears -----------------------------------------------------

  predicate NoStreakBefore(s: RunState, t: int) {
    s.firstBlockedAt.None? || s.firstBlockedAt.value >= t
  }

  lemma NoStreakStays(s: RunState, w: Sweep, cfg: Config, t: int)
    requires NoStreakBefore(s, t) && t <= w.seen.now
    ensures NoStreakBefore(Check(s, w, cfg).state, t)
    ensures Check(s, w, cfg).forced ==> w.seen.now - t >= cfg.forceRestartAfterMs
  {
    hide DecideGate;
  }

  lemma ClearEndsStreak(s: RunState, w: Sweep, cfg: Config)
    requires Check(s, w, cfg).clearRecorded
    ensures Check(s, w, cfg).state.firstBlockedAt.None? && Check(s, w, cfg).cleared
    ensures NoStreakBefore(Check(s, w, cfg).state, w.seen.now)
  {
    hide DecideGate, ShouldForceRestart, Reset;
  }

  lemma {:induction false} NoStreakRun(start: RunState, ws: seq<Sweep>, cfg: Config, k: nat, t: int)
    requires k <= |ws| && NoStreakBefore(start, t) && forall m :: 0 <= m < k ==> t <= ws[m].seen.now
    ensures NoStreakBefore(StateAt(start, ws, cfg, k), t)
  {
    hide Check, NoStreakBefore;
    if k > 0 {
      NoStreakRun(start, ws, cfg, k - 1, t);
      NoStreakStays(StateAt(start, ws, cfg, k - 1), ws[k - 1], cfg, t);
    }
  }

  lemma {:induction false} NoStreakFrom(start: RunState, ws: seq<Sweep>, cfg: Config, i: nat, k: nat)
    requires i < k <= |ws| && Clocked(ws) && At(start, ws, cfg, i).clearRecorded
    ensures NoStreakBefore(StateAt(start, ws, cfg, k), ws[i].seen.now)
  {
    hide Check, StateAt;
    StateNext(start, ws, cfg, k - 1);
    if k == i + 1 { ClearEndsStreak(StateAt(start, ws, cfg, i), ws[i], cfg); }
    else {
      NoStreakFrom(start, ws, cfg, i, k - 1);
      NoStreakStays(StateAt(start, ws, cfg, k - 1), ws[k - 1], cfg, ws[i].seen.now);
    }
  }

  /** A forced clear comes at least the force time after any earlier clear of the run, if that clear was recorded. */
  lemma ForcedApart(start: RunState, ws: seq<Sweep>, cfg: Config, i: nat, j: nat)
    requires i < j < |ws| && Clocked(ws)
    requires At(start, ws, cfg, i).clearRecorded && At(start, ws, cfg, j).forced
    ensures ws[j].seen.now - ws[i].seen.now >= cfg.forceRestartAfterMs
  {
    hide Check, NoStreakBefore, StateAt;
    NoStreakFrom(start, ws, cfg, i, j);
    NoStreakStays(StateAt(start, ws, cfg, j), ws[j], cfg, ws[i].seen.now);
  }

  /** A forced clear that was not recorded, because its notice or the write after it failed, comes again: the same sweep a
      moment later clears the session once more. */
  lemma UnrecordedForceRepeats(s: RunState, w: Sweep, cfg: Config, later: int)
    requires Check(s, w, cfg).forced && !Check(s, w, cfg).clearRecorded && later >= w.seen.now
    ensures Check(Check(s, w, cfg).state, w.(seen := w.seen.(now := later)), cfg).forced
  {
  }

  ghost predicate NoForceSoon(start: RunState, t: int, cfg: Config) {
    forall ws: seq<Sweep>, j: nat ::
      j < |ws| && Clocked(ws) && ws[0].seen.now >= t && At(start, ws, cfg, j).forced ==> ws[j].seen.now - t >= cfg.forceRestartAfterMs
  }

  lemma ForceRecordedIff(s: RunState, w: Sweep, cfg: Config)
    requires Check(s, w, cfg).forced
    ensures Check(s, w, cfg).clearRecorded <==> w.noticeSent && w.forceSaved
  {
    hide DecideGate, ShouldForceRestart, Reset;
  }

  /** The exact condition: after a forced clear the force time is kept exactly when its notice and the write after it go through. */
  lemma ForcedApartIff(s: RunState, w: Sweep, cfg: Config)
    requires cfg.forceRestartAfterMs > 0 && Check(s, w, cfg).forced
    ensures w.noticeSent && w.forceSaved <==> NoForceSoon(Check(s, w, cfg).state, w.seen.now, cfg)
  {
    var next, t := Check(s, w, cfg).state, w.seen.now;
    ForceRecordedIff(s, w, cfg);
    hide Check, NoStreakBefore;
    if Check(s, w, cfg).clearRecorded {
      ClearEndsStreak(s, w, cfg);
      forall ws: seq<Sweep>, j: nat | j < |ws| && Clocked(ws) && ws[0].seen.now >= t && At(next, ws, cfg, j).forced
        ensures ws[j].seen.now - t >= cfg.forceRestartAfterMs
      {
        NoStreakRun(next, ws, cfg, j, t);
        NoStreakStays(StateAt(next, ws, cfg, j), ws[j], cfg, t);
      }
    } else {
      ForcesAgain(s, w, cfg);
      assert At(next, [w], cfg, 0).forced;
    }
  }

  lemma ForcesAgain(s: RunState, w: Sweep, cfg: Config)
    requires Check(s, w, cfg).forced && !Check(s, w, cfg).clearRecorded
    ensures Check(Check(s, w, cfg).state, w, cfg).forced
  {
    hide *;
    UnrecordedForceRepeats(s, w, cfg, w.seen.now);
    assert w.seen.(now := w.seen.now) == w.seen;
    assert w.(seen := w.seen) == w;
  }

  // ---- what a streak stands for ------------------------------------------

  predicate Above(w: Sweep, cfg: Config) {
    w.seen.tokens.None? || w.seen.tokens.value >= cfg.thresholdTokens
  }

  /** Through sweeps `i` to `k` no clear was recorded, and the context was never seen under the threshold but where the
      write that should have ended the streak failed. */
  ghost predicate Held(start: RunState, ws: seq<Sweep>, cfg: Config, i: nat, k: nat)
    requires k <= |ws|
  {
    forall m :: i <= m < k ==> (Above(ws[m], cfg) || !ws[m].resetSaved) && !At(start, ws, cfg, m).clearRecorded
  }

  ghost predicate Began(start: RunState, ws: seq<Sweep>, cfg: Config, i: nat, k: nat, b: int)
    requires k <= |ws|
  {
    i < k && ws[i].seen.now == b && Held(start, ws, cfg, i, k)
  }

  lemma StreakStep(s: RunState, w: Sweep, cfg: Config)
    requires Check(s, w, cfg).state.firstBlockedAt.Some? && cfg.enabled
    ensures (Above(w, cfg) || !w.resetSaved) && !Check(s, w, cfg).clearRecorded
    ensures Check(s, w, cfg).state.firstBlockedAt == s.firstBlockedAt || Check(s, w, cfg).state.firstBlockedAt == Some(w.seen.now)
  {
    hide ShouldForceRestart;
  }

  /** The stored clock is the time of a sweep since which the streak was never ended. */
  lemma {:induction false} StreakBegan(start: RunState, ws: seq<Sweep>, cfg: Config, k: nat)
    requires cfg.enabled && start.firstBlockedAt.None? && k <= |ws| && StateAt(start, ws, cfg, k).firstBlockedAt.Some?
    ensures exists i :: Began(start, ws, cfg, i, k, StateAt(start, ws, cfg, k).firstBlockedAt.value)
  {
    StateStart(start, ws, cfg);
    hide Check, StateAt, Above;
    if k > 0 {
      var s, b := StateAt(start, ws, cfg, k - 1), StateAt(start, ws, cfg, k).firstBlockedAt;
      StateNext(start, ws, cfg, k - 1);
      StreakStep(s, ws[k - 1], cfg);
      if b == s.firstBlockedAt {
        StreakBegan(start, ws, cfg, k - 1);
        var i :| Began(start, ws, cfg, i, k - 1, b.value);
        assert Began(start, ws, cfg, i, k, b.value);
      } else {
        assert Began(start, ws, cfg, k - 1, k, b.value);
      }
    }
  }

  lemma StateStart(start: RunState, ws: seq<Sweep>, cfg: Config)
    ensures StateAt(start, ws, cfg, 0) == start
  {
  }

  lemma AlertStep(s: RunState, w: Sweep, cfg: Config)
    requires cfg.persistentBlockAlertMs > 0 && (Check(s, w, cfg).alerted || Check(s, w, cfg).forced)
    ensures cfg.enabled && s.firstBlockedAt.Some? && Above(w, cfg)
    ensures w.seen.now - s.firstBlockedAt.value >= cfg.persistentBlockAlertMs
    ensures Check(s, w, cfg).forced ==> w.seen.now - s.firstBlockedAt.value >= cfg.forceRestartAfterMs
    ensures w.sessionStart.Some? ==> s.firstBlockedAt.value >= w.sessionStart.value - SESSION_START_TOLERANCE_MS
  {
  }

  /** An alert (or a forced clear) is earned: for at least the alert time (the force time) before it no clear was recorded and
      the context was not seen under the threshold (a sweep whose reset could not be written excepted), all within the
      current session when its start is known. A drop of the context or a restart in between starts the wait afresh. */
  lemma AlertIsEarned(start: RunState, ws: seq<Sweep>, cfg: Config, k: nat)
    requires start.firstBlockedAt.None? && k < |ws| && cfg.persistentBlockAlertMs > 0
    requires At(start, ws, cfg, k).alerted || At(start, ws, cfg, k).forced
    ensures exists i :: 0 <= i < k && Held(start, ws, cfg, i, k)
              && ws[k].seen.now - ws[i].seen.now >= cfg.persistentBlockAlertMs
              && (At(start, ws, cfg, k).forced ==> ws[k].seen.now - ws[i].seen.now >= cfg.forceRestartAfterMs)
              && (ws[k].sessionStart.Some? ==> ws[i].seen.now >= ws[k].sessionStart.value - SESSION_START_TOLERANCE_MS)
  {
    hide Check, StateAt, Above, Held;
    AlertStep(StateAt(start, ws, cfg, k), ws[k], cfg);
    StreakBegan(start, ws, cfg, k);
    var i :| Began(start, ws, cfg, i, k, StateAt(start, ws, cfg, k).firstBlockedAt.value);
  }

  /** Whatever clears a session, allowed or forced, cuts nothing off that the runner could see: no turn, no known child, no
      dispatched message, no task, and no open question but one whose lookup threw. */
  lemma ClearsCutNothingOff(start: RunState, ws: seq<Sweep>, cfg: Config, k: nat)
    requires k < |ws| && At(start, ws, cfg, k).cleared
    ensures var g := ws[k].seen;
            && g.pane == Some(PaneIdle) && g.dispatched.Some? && g.dispatched.value.count == 0
            && g.question != Some(true) && !g.liveTask && g.children != Some(true)
    ensures !At(start, ws, cfg, k).forced ==> Above(ws[k], cfg) && ws[k].seen.tokens.Some? && !ws[k].seen.usageLimited
  {
    hide StateAt, Reset;
    var x := ws[k].Inputs();
    var s := Reset(StateAt(start, ws, cfg, k), x, ws[k].sessionStart, cfg);
    if DecideGate(x, cfg, s.firstBlockedAt).action == Allow || ShouldForceRestart(x, cfg, s.firstBlockedAt) {
      NothingCutOff(x, cfg, s.firstBlockedAt);
    }
  }

  /** A session with an open question is cleared exactly if the lookup of it throws and nothing else holds the clear back. */
  lemma QuestionCutOffIff(s: RunState, w: Sweep, cfg: Config, found: bool)
    ensures var asked := w.(seen := w.seen.(question := if found then Some(true) else None));
            var unasked := w.(seen := w.seen.(question := Some(false)));
            Check(s, asked, cfg).cleared <==> !found && Check(s, unasked, cfg).cleared
  {
    var asked := w.(seen := w.seen.(question := if found then Some(true) else None));
    if found {
      if Check(s, asked, cfg).cleared { ClearsCutNothingOff(s, [asked], cfg, 0); }
    } else {
      assert Gathered(asked.seen) == Gathered(w.seen.(question := Some(false)));
      hide DecideGate, ShouldForceRestart, Reset, Gathered;
    }
  }
}
