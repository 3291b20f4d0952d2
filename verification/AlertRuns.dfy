/** What the pace model and the alert state promise over whole runs of the collector. */
module AlertRuns {
  import opened Options
  import opened UsageAlerts

  // ---- pace algebra ------------------------------------------------------

  lemma Scale(a: real, b: real, k: real)
    requires k > 0.0
    ensures a < b <==> a * k < b * k
  {
    if a < b { assert (b - a) * k > 0.0; }
    if a > b { assert (a - b) * k > 0.0; }
  }

  lemma Divided(u: real, x: real)
    requires x > 0.0
    ensures (u / x) * x == u
    ensures u > 0.0 ==> u / x > 0.0
  {
    var q := u / x;
    assert q * x == u;
    Scale(0.0, q, x);
  }

  lemma Ratio(u: real, f: real, k: real)
    requires f > 0.0
    ensures u / f > k <==> u > k * f
    ensures u / f >= k <==> u >= k * f
  {
    Divided(u, f);
    Scale(k, u / f, f);
    Scale(u / f, k, f);
  }

  lemma Rearrange(f: real, l: real, b: real)
    ensures f * (l * b) == b * (f * l) && (f * l) * b == f * (l * b)
  {
  }

  lemma Spread(f: real, l: real, b: real)
    ensures ((1.0 - f) * l) * b == l * b - f * (l * b)
  {
  }

  lemma Product(a: real, b: real)
    requires a > 0.0 && b > 0.0
    ensures a * b > 0.0
  {
  }

  /** At burn rate `u` per `f` of a window of length `l`, what is left lasts less than `(1 - f) l` exactly when `u > f`. */
  lemma BurnsOut(u: real, f: real, l: real)
    requires u > 0.0 && f > 0.0 && l > 0.0
    ensures TimeLeft(u, Part(f, l)) < Part(1.0 - f, l) <==> u > f
  {
    Product(f, l);
    Divided(u, f * l);
    var b := u / (f * l);
    Divided(1.0 - u, b);
    Rearrange(f, l, b);
    Spread(f, l, b);
    Compare((1.0 - u) / b, (1.0 - f) * l, l * b, u, f, b);
  }

  lemma Compare(x: real, y: real, c: real, u: real, f: real, b: real)
    requires b > 0.0 && f > 0.0 && x * b == 1.0 - u && f * c == u && y * b == c - u
    ensures x < y <==> u > f
  {
    Scale(x, y, b);
    Scale(1.0, c, f);
  }

  /** An expired window counts as fully elapsed; what is left then lasts past the reset, which is `late` seconds back,
      unless the overuse outruns that too. */
  lemma ExpiredBurnsOut(u: real, l: real, late: real)
    requires u > 0.0 && l > 0.0
    ensures TimeLeft(u, l) < -late <==> l < Part(u, l - late)
  {
    Divided(u, l);
    var b := u / l;
    Divided(1.0 - u, b);
    Scale((1.0 - u) / b, -late, b);
    Scale(1.0 - u, (-late) * b, l);
    Rearrange(-late, b, l);
    Negated(late, u, l);
  }

  lemma Negated(late: real, u: real, l: real)
    ensures (-late) * u == -(late * u) && (1.0 - u) * l == l - u * l && u * (l - late) == u * l - u * late
  {
  }

  /** The share of a window that has not expired, and of one that has. */
  lemma ShareIs(remaining: real, l: real)
    requires l > 0.0
    ensures remaining >= 0.0 && Share(remaining, l) > 0.0 ==> Part(1.0 - Share(remaining, l), l) == remaining
    ensures remaining < 0.0 ==> Share(remaining, l) == 1.0 && Part(Share(remaining, l), l) == l
  {
    var f := (l - remaining) / l;
    Divided(l - remaining, l);
    Scale(1.0, f, l);
    assert (1.0 - f) * l == l - f * l;
    if remaining >= 0.0 && Share(remaining, l) > 0.0 { assert Share(remaining, l) == f; }
  }

  /** What compute_pace puts into its result. */
  lemma PaceParts(w: Window, now: real)
    requires ComputePace(w, now).Some?
    ensures var p := ComputePace(w, now).value;
            && w.length != 0.0 && p.resetsAt == now + p.remaining && p.elapsed == Share(p.remaining, w.length) && p.used >= 0.0
            && p.ratio == (if p.elapsed > TINY then Some(p.used / p.elapsed) else None)
            && p.exhaustion == ExhaustedAt(now, p.used, Part(p.elapsed, w.length))
  {
    hide Share, ExhaustedAt, Part;
  }

  lemma ExhaustedIs(now: real, used: real, seconds: real)
    ensures ExhaustedAt(now, used, seconds).Some? <==> seconds > TINY && used > 0.0
    ensures ExhaustedAt(now, used, seconds).Some? ==> ExhaustedAt(now, used, seconds).value == now + TimeLeft(used, seconds)
  {
    if seconds > TINY { Divided(used, seconds); }
    hide TimeLeft;
  }

  lemma SharePositive(f: real, l: real)
    requires l > 0.0 && Part(f, l) > 0.0
    ensures f > 0.0
  {
    Scale(0.0, f, l);
  }

  /** In a window that has not expired, running out before the reset is the same as a pace above one. */
  lemma ProjectionIff(w: Window, now: real)
    requires w.length > 0.0 && ComputePace(w, now).Some?
    requires var p := ComputePace(w, now).value; p.remaining >= 0.0 && p.exhaustion.Some?
    ensures var p := ComputePace(w, now).value;
            && (p.exhaustion.value < p.resetsAt <==> p.used > p.elapsed)
            && (p.ratio.Some? ==> (p.exhaustion.value < p.resetsAt <==> p.ratio.value > 1.0))
  {
    PaceParts(w, now);
    hide ComputePace, Share, ExhaustedAt, TimeLeft, Part;
    var p := ComputePace(w, now).value;
    ExhaustedIs(now, p.used, Part(p.elapsed, w.length));
    SharePositive(p.elapsed, w.length);
    ShareIs(p.remaining, w.length);
    BurnsOut(p.used, p.elapsed, w.length);
    if p.ratio.Some? { Ratio(p.used, p.elapsed, 1.0); }
  }

  /** When overuse is signalled: in an unexpired window exactly when a share of at least `MIN_ELAPSED` has passed and the
      pace is at least `OVER_RATIO`, so asking for the projection as well changes nothing; in an expired window the
      projection decides too. */
  lemma OverIff(w: Window, now: real)
    requires w.length > 0.0 && ComputePace(w, now).Some?
    ensures var p := ComputePace(w, now).value;
            Judged(w, now, Over) == Some(
              && p.elapsed >= MIN_ELAPSED && Part(p.elapsed, w.length) > TINY
              && p.used >= OVER_RATIO * p.elapsed
              && (p.remaining >= 0.0 || w.length < Part(p.used, w.length + p.remaining)))
  {
    PaceParts(w, now);
    JudgedIs(w, now);
    hide ComputePace, Judged, Share, ExhaustedAt, TimeLeft, Part;
    var p := ComputePace(w, now).value;
    ExhaustedIs(now, p.used, Part(p.elapsed, w.length));
    if p.elapsed >= MIN_ELAPSED && Part(p.elapsed, w.length) > TINY {
      Ratio(p.used, p.elapsed, OVER_RATIO);
      if p.used >= OVER_RATIO * p.elapsed { OverProjected(w, now); }
    }
  }

  lemma OverProjected(w: Window, now: real)
    requires w.length > 0.0 && ComputePace(w, now).Some?
    requires var p := ComputePace(w, now).value;
             p.elapsed >= MIN_ELAPSED && Part(p.elapsed, w.length) > TINY && p.used >= OVER_RATIO * p.elapsed
    ensures var p := ComputePace(w, now).value;
            && p.exhaustion.Some?
            && (p.exhaustion.value < p.resetsAt <==> p.remaining >= 0.0 || w.length < Part(p.used, w.length + p.remaining))
  {
    PaceParts(w, now);
    hide ComputePace, Share, ExhaustedAt, TimeLeft, Part;
    var p := ComputePace(w, now).value;
    ExhaustedIs(now, p.used, Part(p.elapsed, w.length));
    if p.remaining >= 0.0 {
      ProjectionIff(w, now);
    } else {
      ShareIs(p.remaining, w.length);
      ExpiredBurnsOut(p.used, w.length, -p.remaining);
      assert w.length - (-p.remaining) == w.length + p.remaining;
    }
  }

  // ---- one key through one snapshot --------------------------------------

  lemma KeysApart(s: string, a: Which, t: string, b: Which)
    ensures Key(s, a) == Key(t, b) <==> s == t && a == b
  {
    var x, y := Key(s, a), Key(t, b);
    if x == y {
      LastOf(s, a);
      LastOf(t, b);
      assert x[|x| - 5] == y[|y| - 5];
      assert x[..|s|] == s && y[..|t|] == t;
    }
  }

  lemma LastOf(s: string, a: Which)
    ensures var x := Key(s, a);
            |x| == |s| + |Suffix(a)| && |x| >= 5 && x[|x| - 5] == match a case Near => 's' case Over => '_' case Under => 'u'
  {
  }

  /** The condition the snapshot judges one scope by. */
  function Verdict(ws: seq<Window>, now: real, scope: string, which: Which): Option<bool> {
    if ws == [] then None
    else if ws[|ws| - 1].scope == scope then Judged(ws[|ws| - 1], now, which)
    else Verdict(ws[..|ws| - 1], now, scope, which)
  }

  ghost predicate Distinct(ws: seq<Window>) {
    forall i, j :: 0 <= i < j < |ws| ==> ws[i].scope != ws[j].scope
  }

  function After(e: Entry, verdict: Option<bool>, which: Which, now: real): Entry {
    if verdict.None? then e else NextEntry(e, verdict.value, KindOf(which), now)
  }

  predicate Raised(e: Entry, verdict: Option<bool>, which: Which, now: real) {
    verdict.Some? && Fires(e, verdict.value, KindOf(which), now)
  }

  lemma CallEffect(r: Result, w: Window, now: real, called: Which, scope: string, which: Which)
    ensures var n, key := Call(r, w, now, called), Key(scope, which);
            if w.scope == scope && called == which then
              && Get(n.state, key) == After(Get(r.state, key), Judged(w, now, which), which, now)
              && (Alert(which, scope) in n.alerts <==> Alert(which, scope) in r.alerts || Raised(Get(r.state, key), Judged(w, now, which), which, now))
            else
              && Get(n.state, key) == Get(r.state, key)
              && (Alert(which, scope) in n.alerts <==> Alert(which, scope) in r.alerts)
  {
    CallIs(r, w, now, called);
    KeysApart(w.scope, called, scope, which);
    hide Judged, Key, NextEntry, Fires, KindOf, Call;
  }

  lemma EvaluateEffect(r: Result, w: Window, now: real, scope: string, which: Which)
    ensures var n, key := Evaluate(r, w, now), Key(scope, which);
            if w.scope == scope then
              && Get(n.state, key) == After(Get(r.state, key), Judged(w, now, which), which, now)
              && (Alert(which, scope) in n.alerts <==> Alert(which, scope) in r.alerts || Raised(Get(r.state, key), Judged(w, now, which), which, now))
            else
              && Get(n.state, key) == Get(r.state, key)
              && (Alert(which, scope) in n.alerts <==> Alert(which, scope) in r.alerts)
  {
    hide Judged, Key, After, Raised, Get, Call;
    CallEffect(r, w, now, Near, scope, which);
    CallEffect(Call(r, w, now, Near), w, now, Over, scope, which);
    CallEffect(Call(Call(r, w, now, Near), w, now, Over), w, now, Under, scope, which);
  }

  lemma {:induction false} Unseen(ws: seq<Window>, now: real, scope: string, which: Which)
    requires forall i :: 0 <= i < |ws| ==> ws[i].scope != scope
    ensures Verdict(ws, now, scope, which) == None
  {
    hide Judged;
    if ws != [] { Unseen(ws[..|ws| - 1], now, scope, which); }
  }

  /** A snapshot of distinct scopes calls the gate of each key at most once, with that scope's own condition. */
  lemma {:induction false} SnapshotEffect(state: Alarms, ws: seq<Window>, now: real, scope: string, which: Which)
    requires Distinct(ws)
    ensures var r, e, v := EvaluateAll(state, ws, now), Get(state, Key(scope, which)), Verdict(ws, now, scope, which);
            && Get(r.state, Key(scope, which)) == After(e, v, which, now)
            && (Alert(which, scope) in r.alerts <==> Raised(e, v, which, now))
  {
    hide Judged, Key, NextEntry, Fires, KindOf, Get, Evaluate;
    if ws != [] {
      var n := |ws| - 1;
      SnapshotEffect(state, ws[..n], now, scope, which);
      EvaluateEffect(EvaluateAll(state, ws[..n], now), ws[n], now, scope, which);
      if ws[n].scope == scope { Unseen(ws[..n], now, scope, which); }
    }
  }

  // ---- runs --------------------------------------------------------------

  /** One run of the collector: what it reads, whether its state is saved, and how many of its alerts it gets to print before it
      dies. The state is saved first; a run that cannot save it prints nothing. */
  datatype Snapshot = Snapshot(ws: seq<Window>, now: real, saved: bool, printed: nat)

  function Decided(state: Alarms, s: Snapshot): seq<Alert> {
    EvaluateAll(state, s.ws, s.now).alerts
  }

  function SavedState(state: Alarms, s: Snapshot): Alarms {
    if s.saved then EvaluateAll(state, s.ws, s.now).state else state
  }

  function Printed(state: Alarms, s: Snapshot): seq<Alert> {
    var alerts := Decided(state, s);
    if !s.saved then [] else if s.printed < |alerts| then alerts[..s.printed] else alerts
  }

  /** The state file, and the collector's run over it. */
  class Collector {
    var file: Alarms

    constructor (file: Alarms)
      ensures this.file == file
    {
      this.file := file;
    }

    method Run(s: Snapshot) returns (lines: seq<Alert>)
      modifies this
      ensures file == SavedState(old(file), s) && lines == Printed(old(file), s)
    {
      hide EvaluateAll;
      var state := new AlertState(file);
      var alerts := state.ComputeAlerts(s.ws, s.now);
      lines := [];
      if !s.saved {
        return;
      }
      file := state.state;
      for k := 0 to |alerts|
        invariant k <= s.printed && lines == alerts[..k]
        invariant file == SavedState(old(file), s)
      {
        if k == s.printed {
          return;
        }
        lines := lines + [alerts[k]];
      }
      assert alerts[..|alerts|] == alerts;
    }
  }

  function StateAt(start: Alarms, run: seq<Snapshot>, k: nat): Alarms
    requires k <= |run|
  {
    if k == 0 then start else SavedState(StateAt(start, run, k - 1), run[k - 1])
  }

  /** The k-th run decided on the alert and recorded that it did. */
  predicate AlertedAt(start: Alarms, run: seq<Snapshot>, k: nat, which: Which, scope: string)
    requires k < |run|
  {
    run[k].saved && Alert(which, scope) in Decided(StateAt(start, run, k), run[k])
  }

  /** The k-th run printed it. */
  predicate PrintedAt(start: Alarms, run: seq<Snapshot>, k: nat, which: Which, scope: string)
    requires k < |run|
  {
    Alert(which, scope) in Printed(StateAt(start, run, k), run[k])
  }

  /** What gets out is what was decided, from the first alert on, as far as the run lives; nothing without the save. */
  lemma PrintedIff(start: Alarms, run: seq<Snapshot>, k: nat, which: Which, scope: string)
    requires k < |run|
    ensures var s, out := run[k], Decided(StateAt(start, run, k), run[k]);
            && Printed(StateAt(start, run, k), s) <= out
            && (PrintedAt(start, run, k, which, scope) <==>
                s.saved && exists j :: 0 <= j < |out| && out[j] == Alert(which, scope) && j < s.printed)
  {
    hide StateAt, Decided;
    var s, out, got := run[k], Decided(StateAt(start, run, k), run[k]), Printed(StateAt(start, run, k), run[k]);
    if s.saved {
      assert |got| == (if s.printed < |out| then s.printed else |out|) && forall j :: 0 <= j < |got| ==> got[j] == out[j];
      if j :| 0 <= j < |out| && out[j] == Alert(which, scope) && j < s.printed { assert got[j] in got; }
    }
  }

  ghost predicate ProperRun(run: seq<Snapshot>) {
    forall k :: 0 <= k < |run| ==> Distinct(run[k].ws)
  }

  /** The condition the k-th run recorded. */
  function VerdictAt(run: seq<Snapshot>, k: nat, which: Which, scope: string): Option<bool>
    requires k < |run|
  {
    if run[k].saved then Verdict(run[k].ws, run[k].now, scope, which) else None
  }

  function EntryAt(start: Alarms, run: seq<Snapshot>, k: nat, which: Which, scope: string): Entry
    requires k <= |run|
  {
    Get(StateAt(start, run, k), Key(scope, which))
  }

  lemma EntryNext(start: Alarms, run: seq<Snapshot>, k: nat, which: Which, scope: string)
    requires k < |run| && ProperRun(run)
    ensures EntryAt(start, run, k + 1, which, scope) ==
            After(EntryAt(start, run, k, which, scope), VerdictAt(run, k, which, scope), which, run[k].now)
    ensures AlertedAt(start, run, k, which, scope) <==>
            Raised(EntryAt(start, run, k, which, scope), VerdictAt(run, k, which, scope), which, run[k].now)
  {
    hide EvaluateAll, Get, Key, Verdict, NextEntry, Fires, Distinct;
    SnapshotEffect(StateAt(start, run, k), run[k].ws, run[k].now, scope, which);
  }

  function GapOf(which: Which): (gap: real)
    ensures gap > 0.0
  {
    if which.Under? then UNDER_GAP else OVER_GAP
  }

  /** From snapshot `i` up to `k` the condition was never judged false. */
  ghost predicate SameEpisode(run: seq<Snapshot>, i: nat, k: nat, which: Which, scope: string)
    requires k <= |run|
  {
    forall m :: i <= m < k ==> VerdictAt(run, m, which, scope) != Some(false)
  }

  lemma RaisedMeans(e: Entry, v: Option<bool>, which: Which, now: real)
    ensures Raised(e, v, which, now) ==> v == Some(true) && After(e, v, which, now) == Entry(true, Some(now))
    ensures Raised(e, v, which, now) && e.active && e.lastFired.Some? ==> now - e.lastFired.value >= GapOf(which)
    ensures !Raised(e, v, which, now) && v != Some(false) ==> After(e, v, which, now).lastFired == e.lastFired
    ensures e.active && v != Some(false) ==> After(e, v, which, now).active
  {
  }

  lemma {:induction false} FiredSince(start: Alarms, run: seq<Snapshot>, i: nat, k: nat, which: Which, scope: string)
    requires ProperRun(run) && i < k <= |run| && AlertedAt(start, run, i, which, scope) && SameEpisode(run, i + 1, k, which, scope)
    ensures var e := EntryAt(start, run, k, which, scope);
            e.active && e.lastFired.Some? && e.lastFired.value >= run[i].now
  {
    hide EntryAt, AlertedAt, VerdictAt, After, Raised, ProperRun;
    EntryNext(start, run, k - 1, which, scope);
    RaisedMeans(EntryAt(start, run, k - 1, which, scope), VerdictAt(run, k - 1, which, scope), which, run[k - 1].now);
    if k > i + 1 { FiredSince(start, run, i, k - 1, which, scope); }
  }

  /** Within one episode two alerts of a kind are at least its gap apart, from any stored state and by any clock. */
  lemma EpisodeAlertsApart(start: Alarms, run: seq<Snapshot>, i: nat, j: nat, which: Which, scope: string)
    requires ProperRun(run) && i < j < |run| && SameEpisode(run, i + 1, j, which, scope)
    requires AlertedAt(start, run, i, which, scope) && AlertedAt(start, run, j, which, scope)
    ensures run[j].now - run[i].now >= GapOf(which)
  {
    hide EntryAt, AlertedAt, VerdictAt, After, Raised, ProperRun, GapOf;
    FiredSince(start, run, i, j, which, scope);
    EntryNext(start, run, j, which, scope);
    RaisedMeans(EntryAt(start, run, j, which, scope), VerdictAt(run, j, which, scope), which, run[j].now);
  }

  /** From an empty state file every stored alarm stays consistent. */
  lemma {:induction false} RunConsistent(run: seq<Snapshot>, k: nat, which: Which, scope: string)
    requires ProperRun(run) && k <= |run|
    ensures Consistent(EntryAt(map[], run, k, which, scope))
  {
    hide Key, VerdictAt, ProperRun;
    if k > 0 {
      RunConsistent(run, k - 1, which, scope);
      EntryNext(map[], run, k - 1, which, scope);
      var v := VerdictAt(run, k - 1, which, scope);
      if v.Some? { CallKeepsConsistent(EntryAt(map[], run, k - 1, which, scope), v.value, KindOf(which), run[k - 1].now); }
      hide EntryAt;
    }
  }

  /** The last alert of the episode that snapshot `k` belongs to was decided in run `i`. */
  ghost predicate LastAlert(run: seq<Snapshot>, i: nat, k: nat, which: Which, scope: string)
    requires k <= |run|
  {
    && i < k && AlertedAt(map[], run, i, which, scope) && SameEpisode(run, i + 1, k, which, scope)
    && forall m :: i < m < k ==> !AlertedAt(map[], run, m, which, scope)
  }

  /** An active alarm was raised in this episode, last at the time it carries. */
  lemma {:induction false} ActiveWasRaised(run: seq<Snapshot>, k: nat, which: Which, scope: string)
    requires ProperRun(run) && k <= |run| && EntryAt(map[], run, k, which, scope).active
    ensures exists i: nat :: i < k && LastAlert(run, i, k, which, scope) && EntryAt(map[], run, k, which, scope).lastFired == Some(run[i].now)
  {
    EmptyStart(run, which, scope);
    hide EntryAt, AlertedAt, VerdictAt, ProperRun, SameEpisode, LastAlert;
    if k > 0 {
      var e, v, now := EntryAt(map[], run, k - 1, which, scope), VerdictAt(run, k - 1, which, scope), run[k - 1].now;
      RunConsistent(run, k - 1, which, scope);
      EntryNext(map[], run, k - 1, which, scope);
      RaisedMeans(e, v, which, now);
      hide After, Raised;
      if Raised(e, v, which, now) {
        AlertNow(run, k, which, scope);
      } else {
        NotRaised(e, v, which, now);
        ActiveWasRaised(run, k - 1, which, scope);
        var i: nat :| i < k - 1 && LastAlert(run, i, k - 1, which, scope) && e.lastFired == Some(run[i].now);
        AlertStays(run, i, k, which, scope);
      }
    }
  }

  lemma EmptyStart(run: seq<Snapshot>, which: Which, scope: string)
    ensures EntryAt(map[], run, 0, which, scope) == Entry(false, None)
  {
  }

  lemma NotRaised(e: Entry, v: Option<bool>, which: Which, now: real)
    requires Consistent(e) && !Raised(e, v, which, now) && After(e, v, which, now).active
    ensures v != Some(false) && e.active && After(e, v, which, now).lastFired == e.lastFired
    ensures v == Some(true) ==> now - e.lastFired.value < GapOf(which)
  {
  }

  lemma AlertNow(run: seq<Snapshot>, k: nat, which: Which, scope: string)
    requires 0 < k <= |run| && AlertedAt(map[], run, k - 1, which, scope)
    ensures LastAlert(run, k - 1, k, which, scope)
  {
    hide AlertedAt;
  }

  lemma AlertStays(run: seq<Snapshot>, i: nat, k: nat, which: Which, scope: string)
    requires 0 < k <= |run| && LastAlert(run, i, k - 1, which, scope)
    requires VerdictAt(run, k - 1, which, scope) != Some(false) && !AlertedAt(map[], run, k - 1, which, scope)
    ensures LastAlert(run, i, k, which, scope)
  {
    hide AlertedAt, VerdictAt;
  }

  /** From an empty state file, wherever a condition is judged true and recorded, an alert of this episode was decided less than
      the gap ago, or is now. */
  lemma NeverSilentLong(run: seq<Snapshot>, k: nat, which: Which, scope: string)
    requires ProperRun(run) && k < |run| && VerdictAt(run, k, which, scope) == Some(true)
    ensures exists i: nat :: i <= k && LastAlert(run, i, k + 1, which, scope) && (i == k || run[k].now - run[i].now < GapOf(which))
  {
    hide *;
    var e, v, now := EntryAt(map[], run, k, which, scope), VerdictAt(run, k, which, scope), run[k].now;
    TrueActivates(e, which, now);
    RunConsistent(run, k, which, scope);
    EntryNext(map[], run, k, which, scope);
    if Raised(e, v, which, now) {
      AlertNow(run, k + 1, which, scope);
    } else {
      NotRaised(e, v, which, now);
      ActiveWasRaised(run, k, which, scope);
      var i: nat :| i < k && LastAlert(run, i, k, which, scope) && e.lastFired == Some(run[i].now);
      AlertStays(run, i, k + 1, which, scope);
    }
  }

  lemma TrueActivates(e: Entry, which: Which, now: real)
    ensures After(e, Some(true), which, now).active
  {
  }

  /** An earlier alert of the episode lies less than the gap back. */
  ghost predicate AlertedLately(run: seq<Snapshot>, k: nat, which: Which, scope: string)
    requires k < |run|
  {
    exists i :: 0 <= i < k && AlertedAt(map[], run, i, which, scope) && SameEpisode(run, i + 1, k, which, scope) &&
                run[k].now - run[i].now < (if which.Under? then 43200.0 else 2700.0)
  }

  lemma GapsAre(which: Which)
    ensures GapOf(which) == if which.Under? then 43200.0 else 2700.0
  {
  }

  /** Exactly when an alert is raised, from an empty state file and by any clock: the condition is judged true and recorded, and no
      alert of the episode lies less than three quarters of an hour back, for underuse half a day. */
  lemma AlertedIff(run: seq<Snapshot>, k: nat, which: Which, scope: string)
    requires ProperRun(run) && k < |run|
    ensures AlertedAt(map[], run, k, which, scope) <==>
            VerdictAt(run, k, which, scope) == Some(true) && !AlertedLately(run, k, which, scope)
  {
    hide AlertedAt, VerdictAt, ProperRun, GapOf, EntryAt, After, Raised;
    GapsAre(which);
    if AlertedAt(map[], run, k, which, scope) {
      EntryNext(map[], run, k, which, scope);
      RaisedMeans(EntryAt(map[], run, k, which, scope), VerdictAt(run, k, which, scope), which, run[k].now);
      if i :| 0 <= i < k && AlertedAt(map[], run, i, which, scope) && SameEpisode(run, i + 1, k, which, scope) &&
              run[k].now - run[i].now < GapOf(which) {
        EpisodeAlertsApart(map[], run, i, k, which, scope);
      }
    } else if VerdictAt(run, k, which, scope) == Some(true) {
      NeverSilentLong(run, k, which, scope);
      var i: nat :| i <= k && LastAlert(run, i, k + 1, which, scope) && (i == k || run[k].now - run[i].now < GapOf(which));
      assert SameEpisode(run, i + 1, k, which, scope);
    }
  }

  // ---- what is printed ---------------------------------------------------

  /** An alert of the episode was printed less than the gap before run `k`, or by it. */
  ghost predicate Heard(run: seq<Snapshot>, k: nat, which: Which, scope: string)
    requires k < |run|
  {
    exists i :: 0 <= i <= k && PrintedAt(map[], run, i, which, scope) && SameEpisode(run, i + 1, k + 1, which, scope) &&
                (i == k || run[k].now - run[i].now < GapOf(which))
  }

  ghost predicate Clocked(run: seq<Snapshot>) {
    forall i, j :: 0 <= i < j < |run| ==> run[i].now <= run[j].now
  }

  lemma PrintedWasDecided(start: Alarms, run: seq<Snapshot>, k: nat, which: Which, scope: string)
    requires k < |run| && PrintedAt(start, run, k, which, scope)
    ensures AlertedAt(start, run, k, which, scope)
  {
    hide EvaluateAll, StateAt;
  }

  /** Exactly when nobody hears of a true condition for as long as the gap: the alert that was last decided in the episode was
      not printed, because the run that saved it died first. */
  lemma HeardIff(run: seq<Snapshot>, k: nat, which: Which, scope: string)
    requires ProperRun(run) && Clocked(run) && k < |run| && VerdictAt(run, k, which, scope) == Some(true)
    ensures exists i: nat :: i <= k && LastAlert(run, i, k + 1, which, scope) &&
              (Heard(run, k, which, scope) <==> PrintedAt(map[], run, i, which, scope))
  {
    hide *;
    NeverSilentLong(run, k, which, scope);
    var i: nat :| i <= k && LastAlert(run, i, k + 1, which, scope) && (i == k || run[k].now - run[i].now < GapOf(which));
    if Heard(run, k, which, scope) { OnlyLast(run, i, k, which, scope); }
    if PrintedAt(map[], run, i, which, scope) { LastHeard(run, i, k, which, scope); }
  }

  lemma LastHeard(run: seq<Snapshot>, i: nat, k: nat, which: Which, scope: string)
    requires i <= k < |run| && LastAlert(run, i, k + 1, which, scope) && PrintedAt(map[], run, i, which, scope)
    requires i == k || run[k].now - run[i].now < GapOf(which)
    ensures Heard(run, k, which, scope)
  {
    hide AlertedAt, PrintedAt, SameEpisode, GapOf;
  }

  /** No earlier alert of the episode lies within the gap. */
  lemma OnlyLast(run: seq<Snapshot>, i: nat, k: nat, which: Which, scope: string)
    requires ProperRun(run) && Clocked(run) && i <= k < |run| && LastAlert(run, i, k + 1, which, scope)
    requires Heard(run, k, which, scope)
    ensures PrintedAt(map[], run, i, which, scope)
  {
    hide AlertedAt, VerdictAt, PrintedAt, ProperRun, GapOf;
    var j :| 0 <= j <= k && PrintedAt(map[], run, j, which, scope) && SameEpisode(run, j + 1, k + 1, which, scope) &&
             (j == k || run[k].now - run[j].now < GapOf(which));
    PrintedWasDecided(map[], run, j, which, scope);
    if j < i {
      assert SameEpisode(run, j + 1, i, which, scope);
      EpisodeAlertsApart(map[], run, j, i, which, scope);
    }
  }
}
