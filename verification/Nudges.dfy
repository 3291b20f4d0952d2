/** The blackboard hygiene sweep: who is nudged, who is held back, and when a nudge turns into an escalation
    (scripts/blackboard-hygiene.py). Times in seconds. */
module Nudges {
  import opened Options
  import opened Text

  const DONE_GRACE: int := 900
  const STALE: int := 7200
  const BLOCKED_IDLE: int := 3600
  const OPEN_IDLE: int := 1800
  const ESCALATE_AT: int := 2
  const MAINT_WINDOW: int := 900
  const NUDGE_COOLDOWN: int := 1800
  const WAKE_GUARD: int := 4500
  const PENDING_HOLD: int := STALE

  // ---- one agent ---------------------------------------------------------

  datatype RowStatus = RowDone | RowBlocked | RowActive | RowStale | RowOther

  datatype BoardRow = BoardRow(status: RowStatus, updatedAt: int)

  /** The newest delivered message to the agent. */
  datatype Incoming = Incoming(fromCoordinator: bool, maintenance: bool, ts: int)

  /** The newest hygiene message to the agent. */
  datatype Nudge = Nudge(pending: bool, ts: int)

  datatype View = View(name: string, paneActive: bool, row: Option<BoardRow>, incoming: Option<Incoming>, nudge: Option<Nudge>)

  predicate IsLagging(row: Option<BoardRow>, now: int) {
    row.None? ||
    ((row.value.status.RowDone? || row.value.status.RowBlocked?) && now - row.value.updatedAt > DONE_GRACE) ||
    now - row.value.updatedAt > STALE
  }

  predicate IsMaintenance(m: Option<Incoming>, now: int) {
    m.Some? && m.value.fromCoordinator && m.value.maintenance && now - m.value.ts < MAINT_WINDOW
  }

  predicate OnHold(nudge: Option<Nudge>, row: Option<BoardRow>, now: int) {
    nudge.Some? &&
    var age := now - nudge.value.ts;
    (nudge.value.pending && age < PENDING_HOLD) ||
    (age < NUDGE_COOLDOWN && !(row.Some? && row.value.updatedAt > nudge.value.ts))
  }

  predicate IsStaleBlocked(row: Option<BoardRow>, now: int) {
    row.Some? && row.value.status.RowBlocked? && now - row.value.updatedAt > BLOCKED_IDLE
  }

  predicate IsOpenIdle(row: Option<BoardRow>, now: int) {
    row.Some? && (row.value.status.RowActive? || row.value.status.RowStale?) && now - row.value.updatedAt > OPEN_IDLE
  }

  predicate IsWakeGap(lastSweep: Option<int>, now: int) {
    lastSweep.Some? && now - lastSweep.value > WAKE_GUARD
  }

  predicate HeldBack(v: View, now: int) {
    IsMaintenance(v.incoming, now) || OnHold(v.nudge, v.row, now)
  }

  // ---- the groups --------------------------------------------------------

  datatype Group = Fine | Lagging | LaggingHeld | BlockedIdle | OpenIdle | OpenHeld

  /** The one group an agent falls into. */
  function GroupOf(v: View, now: int): Group {
    if v.paneActive then
      if !IsLagging(v.row, now) then Fine else if HeldBack(v, now) then LaggingHeld else Lagging
    else if IsStaleBlocked(v.row, now) then BlockedIdle
    else if !IsOpenIdle(v.row, now) then Fine
    else if HeldBack(v, now) then OpenHeld
    else OpenIdle
  }

  function Members(views: seq<View>, now: int, g: Group): seq<string> {
    if views == [] then []
    else Members(views[..|views| - 1], now, g) + if GroupOf(views[|views| - 1], now) == g then [views[|views| - 1].name] else []
  }

  lemma MembersNext(views: seq<View>, now: int, g: Group, k: nat)
    requires k < |views|
    ensures Members(views[..k + 1], now, g) == Members(views[..k], now, g) + if GroupOf(views[k], now) == g then [views[k].name] else []
    ensures views[..0] == [] && Members([], now, g) == []
  {
    hide GroupOf;
    assert views[..k + 1][..k] == views[..k];
  }

  lemma GroupMeans(v: View, now: int)
    ensures var g := GroupOf(v, now);
            && (g == Lagging <==> v.paneActive && IsLagging(v.row, now) && !HeldBack(v, now))
            && (g == LaggingHeld <==> v.paneActive && IsLagging(v.row, now) && HeldBack(v, now))
            && (g == BlockedIdle <==> !v.paneActive && IsStaleBlocked(v.row, now))
            && (g == OpenIdle <==> !v.paneActive && IsOpenIdle(v.row, now) && !HeldBack(v, now))
            && (g == OpenHeld <==> !v.paneActive && IsOpenIdle(v.row, now) && HeldBack(v, now))
  {
  }

  lemma NoMembers(now: int)
    ensures forall g :: Members([], now, g) == []
  {
  }

  /** The loops of main that sort the running agents into groups. */
  method Partition(views: seq<View>, now: int)
    returns (lagging: seq<string>, held: seq<string>, blockedIdle: seq<string>, openIdle: seq<string>)
    ensures lagging == Members(views, now, Lagging)
    ensures held == Members(views, now, LaggingHeld) + Members(views, now, OpenHeld)
    ensures blockedIdle == Members(views, now, BlockedIdle)
    ensures openIdle == Members(views, now, OpenIdle)
  {
    hide *;
    lagging, held, blockedIdle, openIdle := [], [], [], [];
    NoMembers(now);
    assert views[..0] == [] && views[..|views|] == views;
    for k := 0 to |views|
      invariant lagging == Members(views[..k], now, Lagging)
      invariant held == Members(views[..k], now, LaggingHeld)
    {
      var v := views[k];
      GroupMeans(v, now);
      MembersNext(views, now, Lagging, k);
      MembersNext(views, now, LaggingHeld, k);
      if v.paneActive && IsLagging(v.row, now) {
        if IsMaintenance(v.incoming, now) || OnHold(v.nudge, v.row, now) {
          HeldIs(v, now);
          held := held + [v.name];
        } else {
          HeldIs(v, now);
          lagging := lagging + [v.name];
        }
      }
    }
    ghost var heldLagging := held;
    for k := 0 to |views|
      invariant blockedIdle == Members(views[..k], now, BlockedIdle)
    {
      var v := views[k];
      GroupMeans(v, now);
      MembersNext(views, now, BlockedIdle, k);
      if !v.paneActive && IsStaleBlocked(v.row, now) {
        blockedIdle := blockedIdle + [v.name];
      }
    }
    assert held == heldLagging + Members(views[..0], now, OpenHeld);
    for k := 0 to |views|
      invariant openIdle == Members(views[..k], now, OpenIdle)
      invariant held == heldLagging + Members(views[..k], now, OpenHeld)
    {
      var v := views[k];
      GroupMeans(v, now);
      MembersNext(views, now, OpenIdle, k);
      MembersNext(views, now, OpenHeld, k);
      HeldIs(v, now);
      Regroup(heldLagging, Members(views[..k], now, OpenHeld), [v.name]);
      NothingAdded(Members(views[..k], now, OpenHeld));
      if v.paneActive || !IsOpenIdle(v.row, now) {
        continue;
      }
      if IsMaintenance(v.incoming, now) || OnHold(v.nudge, v.row, now) {
        held := held + [v.name];
      } else {
        openIdle := openIdle + [v.name];
      }
    }
  }

  lemma HeldIs(v: View, now: int)
    ensures HeldBack(v, now) <==> IsMaintenance(v.incoming, now) || OnHold(v.nudge, v.row, now)
  {
  }

  ghost predicate DistinctNames(views: seq<View>) {
    forall i, j :: 0 <= i < j < |views| ==> views[i].name != views[j].name
  }

  ghost predicate NoRepeats(xs: seq<string>) {
    forall i, j :: 0 <= i < j < |xs| ==> xs[i] != xs[j]
  }

  lemma {:induction false} MembersAre(views: seq<View>, now: int, g: Group)
    ensures forall a :: a in Members(views, now, g) <==> exists i :: 0 <= i < |views| && views[i].name == a && GroupOf(views[i], now) == g
    ensures DistinctNames(views) ==> NoRepeats(Members(views, now, g))
  {
    hide GroupOf;
    if views != [] {
      var n := |views| - 1;
      MembersAre(views[..n], now, g);
      var before, all := Members(views[..n], now, g), Members(views, now, g);
      forall a ensures a in all <==> exists i :: 0 <= i < |views| && views[i].name == a && GroupOf(views[i], now) == g {
        if a in before {
          var i :| 0 <= i < n && views[..n][i].name == a && GroupOf(views[..n][i], now) == g;
          assert views[i].name == a && GroupOf(views[i], now) == g;
        }
        if i :| 0 <= i < |views| && views[i].name == a && GroupOf(views[i], now) == g {
          if i < n { assert views[..n][i].name == a && GroupOf(views[..n][i], now) == g; }
        }
      }
      if DistinctNames(views) {
        forall j | 0 <= j < |before| ensures before[j] != views[n].name {
          assert before[j] in before;
        }
      }
    }
  }

  /** No agent is in two groups: at most one nudge each, and nobody is both nudged and held. */
  lemma GroupsDisjoint(views: seq<View>, now: int, g: Group, h: Group, a: string)
    requires DistinctNames(views) && a in Members(views, now, g) && a in Members(views, now, h)
    ensures g == h
  {
    hide GroupOf, Members;
    MembersAre(views, now, g);
    MembersAre(views, now, h);
    var i :| 0 <= i < |views| && views[i].name == a && GroupOf(views[i], now) == g;
    var j :| 0 <= j < |views| && views[j].name == a && GroupOf(views[j], now) == h;
    assert i == j;
  }

  function Nudged(views: seq<View>, now: int): seq<string> {
    Members(views, now, Lagging) + Members(views, now, BlockedIdle) + Members(views, now, OpenIdle)
  }

  function Held(views: seq<View>, now: int): seq<string> {
    Members(views, now, LaggingHeld) + Members(views, now, OpenHeld)
  }

  lemma OneNudgeEach(views: seq<View>, now: int)
    requires DistinctNames(views)
    ensures NoRepeats(Nudged(views, now))
    ensures forall a :: a in Nudged(views, now) ==> a !in Held(views, now)
  {
    hide Members;
    var l, b, o := Members(views, now, Lagging), Members(views, now, BlockedIdle), Members(views, now, OpenIdle);
    MembersAre(views, now, Lagging);
    MembersAre(views, now, BlockedIdle);
    MembersAre(views, now, OpenIdle);
    forall a, g: Group, h: Group | a in Members(views, now, g) && a in Members(views, now, h) ensures g == h {
      GroupsDisjoint(views, now, g, h, a);
    }
    JoinApart(l, b);
    JoinApart(l + b, o);
  }

  lemma JoinApart(xs: seq<string>, ys: seq<string>)
    requires NoRepeats(xs) && NoRepeats(ys) && forall a :: a in xs ==> a !in ys
    ensures NoRepeats(xs + ys)
  {
    var all := xs + ys;
    forall i, j | 0 <= i < j < |all| ensures all[i] != all[j] {
      if i < |xs| <= j { assert xs[i] in xs && ys[j - |xs|] in ys; }
    }
  }

  // ---- who is nudged, in seconds -----------------------------------------

  /** How old the agent's row is, when it has one. */
  function RowAge(v: View, now: int): Option<int> {
    if v.row.None? then None else Some(now - v.row.value.updatedAt)
  }

  /** The coordinator's own maintenance began the agent's turn less than a quarter of an hour ago. */
  predicate InMaintenance(v: View, now: int) {
    v.incoming.Some? && v.incoming.value.fromCoordinator && v.incoming.value.maintenance && now - v.incoming.value.ts < 900
  }

  /** A nudge undelivered for less than two hours, or sent less than half an hour ago with no update of the row since. */
  predicate RecentlyNudged(v: View, now: int) {
    v.nudge.Some? &&
    ((v.nudge.value.pending && now - v.nudge.value.ts < 7200) ||
     (now - v.nudge.value.ts < 1800 && (v.row.None? || v.row.value.updatedAt <= v.nudge.value.ts)))
  }

  /** A working agent is behind without a row, with a finished or blocked one of more than a quarter of an hour, or with any of more
      than two hours. */
  predicate Behind(v: View, now: int) {
    var age := RowAge(v, now);
    v.paneActive && (age.None? || age.value > 7200 || (age.value > 900 && v.row.value.status in {RowDone, RowBlocked}))
  }

  /** An idle agent's row is forgotten open after half an hour. */
  predicate LeftOpen(v: View, now: int) {
    var age := RowAge(v, now);
    !v.paneActive && age.Some? && age.value > 1800 && v.row.value.status in {RowActive, RowStale}
  }

  /** Exactly which agents are nudged, and why, which are held back, and which are fine: a working agent that is behind, an idle
      one with a row blocked for more than an hour, or left open. A recent nudge or the coordinator's maintenance holds the
      first and the last back, never the second. */
  lemma GroupIff(v: View, now: int)
    ensures var held := InMaintenance(v, now) || RecentlyNudged(v, now);
            var blocked := !v.paneActive && v.row.Some? && v.row.value.status == RowBlocked && now - v.row.value.updatedAt > 3600;
            && (GroupOf(v, now) == Lagging <==> Behind(v, now) && !held)
            && (GroupOf(v, now) == LaggingHeld <==> Behind(v, now) && held)
            && (GroupOf(v, now) == BlockedIdle <==> blocked)
            && (GroupOf(v, now) == OpenIdle <==> LeftOpen(v, now) && !held)
            && (GroupOf(v, now) == OpenHeld <==> LeftOpen(v, now) && held)
  {
  }
}
