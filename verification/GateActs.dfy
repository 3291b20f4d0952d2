/** What one sweep of the restart gate does, told from what it measured, what was stored and which sends and writes came
    through: exactly when it clears, alerts, forces and counts, and what it stores. */
module GateActs {
  import opened Options
  import opened RestartGate

  /** The stored streak began more than a minute before the live session did. */
  predicate Outlived(s: RunState, w: Sweep) {
    s.firstBlockedAt.Some? && w.sessionStart.Some? && s.firstBlockedAt.value < w.sessionStart.value - 60000
  }

  predicate MeasuredBelow(w: Sweep, cfg: Config) {
    w.seen.tokens.Some? && w.seen.tokens.value < cfg.thresholdTokens
  }

  /** The sweep ends a stored streak: it is another session's, or the context has dropped. */
  predicate Resets(s: RunState, w: Sweep, cfg: Config) {
    Outlived(s, w) || (MeasuredBelow(w, cfg) && (s.firstBlockedAt.Some? || s.lastAlertAt.Some?))
  }

  /** The sweep comes to a decision: the gate is on, and a reset it needs is saved. */
  predicate Decides(s: RunState, w: Sweep, cfg: Config) {
    cfg.enabled && (Resets(s, w, cfg) ==> w.resetSaved)
  }

  /** How long the gate has been blocked, the streak of another session not counted. */
  function Streak(s: RunState, w: Sweep): int {
    if s.firstBlockedAt.None? || Outlived(s, w) then 0 else w.seen.now - s.firstBlockedAt.value
  }

  /** Nothing runs that a clear would cut off, as far as it was measured. */
  predicate NothingLive(g: Signals) {
    && g.pane == Some(PaneIdle) && g.dispatched.Some? && g.dispatched.value.count == 0
    && g.question != Some(true) && !g.liveTask && g.children != Some(true)
  }

  /** The gate is open: the context is over the threshold, no other guard is at work, nothing is live, and the child check
      answered or has failed for long enough. */
  predicate Open(s: RunState, w: Sweep, cfg: Config) {
    && w.seen.tokens.Some? && w.seen.tokens.value >= cfg.thresholdTokens
    && (w.seen.phase.GuardIdle? || w.seen.phase.GuardCooldown?) && !w.seen.usageLimited && NothingLive(w.seen)
    && (w.seen.children.Some? || Streak(s, w) >= cfg.childCheckFallbackAfterMs)
  }

  /** Closed for as long as the alert time, with the context not known to be small. */
  predicate Stuck(s: RunState, w: Sweep, cfg: Config) {
    !MeasuredBelow(w, cfg) && !Open(s, w, cfg) && Streak(s, w) >= cfg.persistentBlockAlertMs
  }

  /** Stuck for as long as the force time though nothing is live, all of it measured. */
  predicate Forceable(s: RunState, w: Sweep, cfg: Config) {
    && s.firstBlockedAt.Some? && !Outlived(s, w) && Streak(s, w) >= cfg.forceRestartAfterMs
    && NothingLive(w.seen) && w.seen.children.Some?
  }

  predicate AlertIsDue(s: RunState, w: Sweep, cfg: Config) {
    s.lastAlertAt.None? || Outlived(s, w) || w.seen.now - s.lastAlertAt.value >= cfg.persistentBlockAlertMs
  }

  lemma GateIs(s: RunState, w: Sweep, cfg: Config)
    ensures var r := Reset(s, w.Inputs(), w.sessionStart, cfg);
            && (r != s <==> Resets(s, w, cfg))
            && r == (if Resets(s, w, cfg) then s.(firstBlockedAt := None, lastAlertAt := None) else s)
            && (!MeasuredBelow(w, cfg) ==> BlockedFor(r.firstBlockedAt, w.seen.now) == Streak(s, w))
  {
  }

  /** The decision, of a gate that is on. */
  lemma DecisionIs(s: RunState, w: Sweep, cfg: Config)
    requires cfg.enabled
    ensures var a := DecideGate(w.Inputs(), cfg, Reset(s, w.Inputs(), w.sessionStart, cfg).firstBlockedAt).action;
            && (a.Allow? <==> Open(s, w, cfg))
            && (a.BlockAlert? <==> Stuck(s, w, cfg))
  {
    GateIs(s, w, cfg);
    hide Reset, Streak, Outlived;
  }

  lemma TwoAnswers(answer: Option<bool>)
    ensures answer == Some(false) <==> answer.Some? && answer != Some(true)
  {
    match answer
    case None =>
    case Some(yes) => if yes { assert answer == Some(true); } else { assert answer == Some(false); }
  }

  lemma ForceIs(s: RunState, w: Sweep, cfg: Config)
    requires !MeasuredBelow(w, cfg)
    ensures ShouldForceRestart(w.Inputs(), cfg, Reset(s, w.Inputs(), w.sessionStart, cfg).firstBlockedAt) <==> Forceable(s, w, cfg)
    ensures AlertDue(Reset(s, w.Inputs(), w.sessionStart, cfg), w.seen.now, cfg) <==> AlertIsDue(s, w, cfg)
  {
    GateIs(s, w, cfg);
    TwoAnswers(w.seen.children);
  }

  /** Exactly when a session is cleared in the ordinary way: the gate is on and open, and the send goes through. */
  lemma ClearedIff(s: RunState, w: Sweep, cfg: Config)
    ensures var o := Check(s, w, cfg);
            && (o.cleared && !o.forced <==> Decides(s, w, cfg) && Open(s, w, cfg) && w.clearSent)
            && (o.action == Some(Allow) <==> Decides(s, w, cfg) && Open(s, w, cfg))
  {
    GateIs(s, w, cfg);
    if cfg.enabled { DecisionIs(s, w, cfg); }
    hide DecideGate, ShouldForceRestart, Reset, Open, Stuck, Resets;
  }

  /** Exactly when a clear is forced, and when an alert goes out: a stuck gate forces what it can, and alerts when an alert is due
      and nothing was forced and recorded. */
  lemma ForcedAndAlertedIff(s: RunState, w: Sweep, cfg: Config)
    ensures var o := Check(s, w, cfg);
            var stuck := Decides(s, w, cfg) && Stuck(s, w, cfg);
            var forced := stuck && Forceable(s, w, cfg) && w.clearSent;
            && (o.forced <==> forced)
            && (o.alerted <==> stuck && AlertIsDue(s, w, cfg) && w.alertSent && !(forced && w.noticeSent && w.forceSaved))
            && (o.action == Some(BlockAlert) <==> stuck)
  {
    GateIs(s, w, cfg);
    if cfg.enabled { DecisionIs(s, w, cfg); }
    if !MeasuredBelow(w, cfg) { ForceIs(s, w, cfg); }
    hide DecideGate, ShouldForceRestart, Reset, Open, Resets, AlertIsDue, Forceable, AlertDue;
  }

  /** What is stored after a sweep that came to a decision, its reset applied: a recorded clear ends the streak and keeps its
      time, a forced one counts as an alert too, a recorded alert keeps its time, and the first block over the threshold
      starts the streak. Without a decision, or when the write fails, nothing else is stored. */
  lemma StoredIs(s: RunState, w: Sweep, cfg: Config)
    ensures var o, now := Check(s, w, cfg), w.seen.now;
            var r := if Resets(s, w, cfg) then s.(firstBlockedAt := None, lastAlertAt := None) else s;
            var recorded := o.forced && w.noticeSent && w.forceSaved;
            && (!Decides(s, w, cfg) ==> o.state == s && o.action == (if cfg.enabled then None else Some(Block)))
            && (Decides(s, w, cfg) ==>
                  o.state ==
                  if o.cleared && !o.forced && w.saved then r.(firstBlockedAt := None, lastClearAt := Some(now))
                  else if recorded then RunState(None, Some(now), Some(now))
                  else if o.alerted && w.saved then r.(firstBlockedAt := if r.firstBlockedAt.Some? then r.firstBlockedAt else Some(now), lastAlertAt := Some(now))
                  else if o.action == Some(Block) && w.saved && r.firstBlockedAt.None? && w.seen.tokens.Some? && !MeasuredBelow(w, cfg) then
                    r.(firstBlockedAt := Some(now))
                  else r)
  {
    GateIs(s, w, cfg);
    hide DecideGate, ShouldForceRestart, Reset, Resets, AlertDue;
  }
}
