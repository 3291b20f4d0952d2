/** The usage collector's pace model and alert de-duplication (scripts/usage-collect.py). Times in seconds; real numbers
    stand for the source's floats. */
module UsageAlerts {
  import opened Options

  // ---- pace --------------------------------------------------------------

  const TINY: real := 0.000001
  const OVER_RATIO: real := 1.5
  const UNDER_RATIO: real := 0.5
  const MIN_ELAPSED: real := 0.15
  const NEAR_EXHAUSTION: real := 0.92
  const UNDERUSE_MIN_WINDOW: real := 86400.0
  const NEAR_GAP: real := 2700.0
  const OVER_GAP: real := 2700.0
  const UNDER_GAP: real := 43200.0

  datatype Window = Window(scope: string, usedPercent: Option<real>, resetsAt: Option<real>, length: real)

  datatype Pace = Pace(elapsed: real, used: real, ratio: Option<real>, remaining: real, resetsAt: real, exhaustion: Option<real>)

  function Max(a: real, b: real): real { if a >= b then a else b }

  function Min(a: real, b: real): real { if a <= b then a else b }

  /** The share of the window that has passed, between 0 and 1. */
  function Share(remaining: real, length: real): real
    requires length != 0.0
  {
    Max(0.0, Min(1.0, (length - remaining) / length))
  }

  /** A share of a length. */
  function Part(share: real, length: real): real { share * length }

  /** How long the rest lasts at the rate of `used` in `seconds`. */
  function TimeLeft(used: real, seconds: real): real {
    if seconds == 0.0 || used / seconds == 0.0 then 0.0 else (1.0 - used) / (used / seconds)
  }

  /** When a use of `used` in `seconds` would reach the whole. */
  function ExhaustedAt(now: real, used: real, seconds: real): Option<real> {
    if seconds > TINY && used > 0.0 && used / seconds > 0.0 then Some(now + TimeLeft(used, seconds)) else None
  }

  function ComputePace(w: Window, now: real): Option<Pace> {
    if w.usedPercent.None? || w.resetsAt.None? || w.length == 0.0 then None
    else
      var remaining := w.resetsAt.value - now;
      var elapsed := Share(remaining, w.length);
      var used := Max(0.0, w.usedPercent.value / 100.0);
      var ratio := if elapsed > TINY then Some(used / elapsed) else None;
      Some(Pace(elapsed, used, ratio, remaining, w.resetsAt.value, ExhaustedAt(now, used, Part(elapsed, w.length))))
  }

  // ---- de-duplication ----------------------------------------------------

  datatype Entry = Entry(active: bool, lastFired: Option<real>)

  datatype Kind = Cross | CrossRefire(gap: real) | Throttle(gap: real)

  type Alarms = map<string, Entry>

  function Get(state: Alarms, key: string): Entry {
    if key in state then state[key] else Entry(false, None)
  }

  predicate Fires(e: Entry, condition: bool, kind: Kind, now: real) {
    condition &&
    match kind
    case Cross => !e.active
    case CrossRefire(gap) => !e.active || (e.lastFired.Some? && now - e.lastFired.value >= gap)
    case Throttle(gap) => e.lastFired.None? || now - e.lastFired.value >= gap
  }

  function NextEntry(e: Entry, condition: bool, kind: Kind, now: real): Entry {
    if !condition then Entry(false, None)
    else Entry(true, if Fires(e, condition, kind, now) then Some(now) else e.lastFired)
  }

  /** The two fields always say the same: an alarm is active exactly when it has a last firing. */
  predicate Consistent(e: Entry) { e.active <==> e.lastFired.Some? }

  lemma CallKeepsConsistent(e: Entry, condition: bool, kind: Kind, now: real)
    requires Consistent(e)
    ensures Consistent(NextEntry(e, condition, kind, now))
  {
  }

  /** On consistent entries, and only on them, the two refiring kinds decide alike at every time. */
  lemma RefireIsThrottle(e: Entry, gap: real)
    requires gap > 0.0
    ensures Consistent(e) <==> forall now :: Fires(e, true, CrossRefire(gap), now) == Fires(e, true, Throttle(gap), now)
  {
    if !Consistent(e) {
      var now := if e.lastFired.Some? then e.lastFired.value else 0.0;
      assert Fires(e, true, CrossRefire(gap), now) != Fires(e, true, Throttle(gap), now);
    }
  }

  // ---- one snapshot ------------------------------------------------------

  datatype Which = Near | Over | Under

  datatype Alert = Alert(which: Which, scope: string)

  function KindOf(which: Which): Kind {
    match which
    case Near => CrossRefire(NEAR_GAP)
    case Over => CrossRefire(OVER_GAP)
    case Under => Throttle(UNDER_GAP)
  }

  function Suffix(which: Which): string {
    match which
    case Near => "_near_exhaustion"
    case Over => "_over"
    case Under => "_under"
  }

  function Key(scope: string, which: Which): string { scope + Suffix(which) }

  /** The condition a window is judged by for one kind of alert; None when it is not judged at all. */
  function Judged(w: Window, now: real, which: Which): Option<bool> {
    var pace := ComputePace(w, now);
    if pace.None? || (which.Under? && w.length < UNDERUSE_MIN_WINDOW) then None
    else
      var p := pace.value;
      match which
      case Near => Some(p.used >= NEAR_EXHAUSTION)
      case Over => Some(p.elapsed >= MIN_ELAPSED && p.ratio.Some? && p.ratio.value >= OVER_RATIO &&
                        p.exhaustion.Some? && p.exhaustion.value < p.resetsAt)
      case Under => Some(p.elapsed >= MIN_ELAPSED && p.ratio.Some? && p.ratio.value <= UNDER_RATIO)
  }

  datatype Result = Result(state: Alarms, alerts: seq<Alert>)

  function Call(r: Result, w: Window, now: real, which: Which): Result {
    var condition, key := Judged(w, now, which), Key(w.scope, which);
    if condition.None? then r
    else
      var e := Get(r.state, key);
      Result(r.state[key := NextEntry(e, condition.value, KindOf(which), now)],
             if Fires(e, condition.value, KindOf(which), now) then r.alerts + [Alert(which, w.scope)] else r.alerts)
  }

  function Evaluate(r: Result, w: Window, now: real): Result {
    Call(Call(Call(r, w, now, Near), w, now, Over), w, now, Under)
  }

  function EvaluateAll(state: Alarms, ws: seq<Window>, now: real): Result {
    if ws == [] then Result(state, [])
    else Evaluate(EvaluateAll(state, ws[..|ws| - 1], now), ws[|ws| - 1], now)
  }

  class AlertState {
    var state: Alarms

    constructor (state: Alarms)
      ensures this.state == state
    {
      this.state := state;
    }

    method ShouldFire(key: string, condition: bool, kind: Kind, now: real) returns (fire: bool)
      modifies this
      ensures fire == Fires(Get(old(state), key), condition, kind, now)
      ensures state == old(state)[key := NextEntry(Get(old(state), key), condition, kind, now)]
    {
      var entry := if key in state then state[key] else Entry(false, None);
      fire := false;
      if condition {
        match kind {
          case Cross => fire := !entry.active;
          case CrossRefire(gap) =>
            if !entry.active {
              fire := true;
            } else if entry.lastFired.Some? && now - entry.lastFired.value >= gap {
              fire := true;
            }
          case Throttle(gap) => fire := entry.lastFired.None? || now - entry.lastFired.value >= gap;
        }
        entry := entry.(active := true);
        if fire {
          entry := entry.(lastFired := Some(now));
        }
      } else {
        entry := Entry(false, None);
      }
      state := state[key := entry];
    }

    /** The loop of compute_alerts, with its early `continue`s. */
    method ComputeAlerts(ws: seq<Window>, now: real) returns (alerts: seq<Alert>)
      modifies this
      ensures Result(state, alerts) == EvaluateAll(old(state), ws, now)
    {
      hide *;
      NoWindows(state, now);
      alerts := [];
      for k := 0 to |ws|
        invariant Result(state, alerts) == EvaluateAll(old(state), ws[..k], now)
      {
        var w := ws[k];
        EvaluateNext(old(state), ws, now, k);
        var pace := ComputePace(w, now);
        var underEligible := w.length >= UNDERUSE_MIN_WINDOW;
        JudgedIs(w, now);
        ghost var r := Result(state, alerts);
        CallIs(r, w, now, Near);
        CallIs(Call(r, w, now, Near), w, now, Over);
        CallIs(Call(Call(r, w, now, Near), w, now, Over), w, now, Under);
        if pace.None? {
          continue;
        }
        var p := pace.value;
        var fire := ShouldFire(Key(w.scope, Near), p.used >= NEAR_EXHAUSTION, KindOf(Near), now);
        if fire {
          alerts := alerts + [Alert(Near, w.scope)];
        }
        if p.ratio.None? || p.elapsed < MIN_ELAPSED {
          fire := ShouldFire(Key(w.scope, Over), false, KindOf(Over), now);
          NeverOnFalse(KindOf(Over), now);
          if underEligible {
            fire := ShouldFire(Key(w.scope, Under), false, KindOf(Under), now);
            NeverOnFalse(KindOf(Under), now);
          }
          continue;
        }
        var over := p.ratio.value >= OVER_RATIO && p.exhaustion.Some? && p.exhaustion.value < p.resetsAt;
        fire := ShouldFire(Key(w.scope, Over), over, KindOf(Over), now);
        if fire {
          alerts := alerts + [Alert(Over, w.scope)];
        }
        if underEligible {
          fire := ShouldFire(Key(w.scope, Under), p.ratio.value <= UNDER_RATIO, KindOf(Under), now);
          if fire {
            alerts := alerts + [Alert(Under, w.scope)];
          }
        }
      }
      assert ws[..|ws|] == ws;
    }
  }

  lemma NoWindows(state: Alarms, now: real)
    ensures EvaluateAll(state, [], now) == Result(state, [])
  {
  }

  lemma EvaluateNext(state: Alarms, ws: seq<Window>, now: real, k: nat)
    requires k < |ws|
    ensures EvaluateAll(state, ws[..k + 1], now) ==
            Call(Call(Call(EvaluateAll(state, ws[..k], now), ws[k], now, Near), ws[k], now, Over), ws[k], now, Under)
    ensures ws[..0] == []
  {
    hide Call;
    assert ws[..k + 1][..k] == ws[..k];
  }

  lemma JudgedIs(w: Window, now: real)
    ensures var pace := ComputePace(w, now);
            && (pace.None? ==> forall which :: Judged(w, now, which) == None)
            && (pace.Some? ==>
                var p := pace.value;
                var early := p.ratio.None? || p.elapsed < MIN_ELAPSED;
                && Judged(w, now, Near) == Some(p.used >= NEAR_EXHAUSTION)
                && Judged(w, now, Over) ==
                   Some(!early && p.ratio.value >= OVER_RATIO && p.exhaustion.Some? && p.exhaustion.value < p.resetsAt)
                && Judged(w, now, Under) ==
                   if w.length < UNDERUSE_MIN_WINDOW then None else Some(!early && p.ratio.value <= UNDER_RATIO))
  {
    hide ComputePace;
  }

  lemma CallIs(r: Result, w: Window, now: real, which: Which)
    ensures var condition, key := Judged(w, now, which), Key(w.scope, which);
            var e := Get(r.state, key);
            && (condition.None? ==> Call(r, w, now, which) == r)
            && (condition.Some? ==>
                Call(r, w, now, which).state == r.state[key := NextEntry(e, condition.value, KindOf(which), now)])
            && (condition.Some? ==>
                Call(r, w, now, which).alerts ==
                if Fires(e, condition.value, KindOf(which), now) then r.alerts + [Alert(which, w.scope)] else r.alerts)
  {
    hide Judged, NextEntry, Fires, Get, Key, KindOf;
  }

  lemma NeverOnFalse(kind: Kind, now: real)
    ensures forall e :: !Fires(e, false, kind, now)
  {
  }
}
