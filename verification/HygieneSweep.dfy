/** One sweep of the blackboard hygiene monitor from its reads to its writes (scripts/blackboard-hygiene.py, main). */
module HygieneSweep {
  import opened Options
  import opened Nudges
  import opened NudgeCounters

  /** A nudge to an agent, or word of one to the coordinator; `why` picks the text. */
  datatype Message = NudgeTo(agent: string, why: Group) | EscalationOf(agent: string, why: Group)

  function NudgesTo(agents: seq<string>, why: Group): seq<Message> {
    seq(|agents|, i requires 0 <= i < |agents| => NudgeTo(agents[i], why))
  }

  /** The text an escalated agent's entry ends up with: the later groups overwrite the earlier. */
  function ReasonFor(views: seq<View>, now: int, a: string): Group {
    if a in Members(views, now, OpenIdle) then OpenIdle
    else if a in Members(views, now, BlockedIdle) then BlockedIdle
    else Lagging
  }

  function EscalationsOf(views: seq<View>, now: int, agents: seq<string>): seq<Message> {
    seq(|agents|, i requires 0 <= i < |agents| => EscalationOf(agents[i], ReasonFor(views, now, agents[i])))
  }

  function Escalated(views: seq<View>, now: int, counters: Counters): seq<string> {
    Due(counters, Sorted(Nudged(views, now)))
  }

  function Outbox(views: seq<View>, now: int, counters: Counters): seq<Message> {
    NudgesTo(Members(views, now, Lagging), Lagging) +
    NudgesTo(Members(views, now, BlockedIdle), BlockedIdle) +
    NudgesTo(Members(views, now, OpenIdle), OpenIdle) +
    EscalationsOf(views, now, Escalated(views, now, counters))
  }

  /** What the monitor keeps between two sweeps. */
  datatype Kept = Kept(counters: Counters, lastSweep: Option<int>)

  /** One sweep; `sendFails` are the messages whose send throws, `countersSaved` and `sweepSaved` tell whether the two state
      writes go through. */
  datatype Sweep = Sweep(
    views: seq<View>, now: int, dryRun: bool, sendFails: set<Message>, countersSaved: bool, sweepSaved: bool)

  /** The messages that get out. */
  function Arrived(outbox: seq<Message>, fails: set<Message>): seq<Message> {
    if outbox == [] then []
    else
      var n := |outbox| - 1;
      Arrived(outbox[..n], fails) + if outbox[n] in fails then [] else [outbox[n]]
  }

  function RoundOf(w: Sweep): Round {
    Round(Nudged(w.views, w.now), Held(w.views, w.now))
  }

  /** Messages first, whether they get out or not, then the counters if they changed, then the time of the sweep. */
  function Swept(s: Kept, w: Sweep): (Kept, seq<Message>) {
    if IsWakeGap(s.lastSweep, w.now) then
      (if w.dryRun || !w.sweepSaved then s else s.(lastSweep := Some(w.now)), [])
    else if w.dryRun then (s, [])
    else
      var next := Advance(s.counters, RoundOf(w));
      var stopped := next != s.counters && !w.countersSaved;
      (Kept(if w.countersSaved then next else s.counters, if w.sweepSaved && !stopped then Some(w.now) else s.lastSweep),
       Arrived(Outbox(w.views, w.now, s.counters), w.sendFails))
  }

  class Monitor {
    var counters: Counters
    var lastSweep: Option<int>

    constructor ()
      ensures counters == map[] && lastSweep == None
    {
      counters, lastSweep := map[], None;
    }

    /** The messages that got out, and how many did not. */
    method Run(w: Sweep) returns (sent: seq<Message>, failures: nat)
      modifies this
      ensures (Kept(counters, lastSweep), sent) == Swept(Kept(old(counters), old(lastSweep)), w)
      ensures failures == if w.dryRun || IsWakeGap(old(lastSweep), w.now) then 0 else |Outbox(w.views, w.now, old(counters))| - |sent|
    {
      hide *;
      SweptIs(Kept(counters, lastSweep), w);
      sent, failures := [], 0;
      if IsWakeGap(lastSweep, w.now) {
        if !w.dryRun && w.sweepSaved {
          lastSweep := Some(w.now);
        }
        return;
      }
      var lagging, held, blockedIdle, openIdle := Partition(w.views, w.now);
      var nudged := lagging + blockedIdle + openIdle;
      var next, escalate := NextCounters(counters, nudged, held);
      SweepIs(w.views, w.now, counters, next, escalate);
      if w.dryRun {
        return;
      }
      var outbox := NudgesTo(lagging, Lagging) + NudgesTo(blockedIdle, BlockedIdle) + NudgesTo(openIdle, OpenIdle) +
                    EscalationsOf(w.views, w.now, escalate);
      ArrivedNone(w.sendFails);
      assert outbox[..0] == [];
      for k := 0 to |outbox|
        invariant sent == Arrived(outbox[..k], w.sendFails) && failures + |sent| == k
        invariant counters == old(counters) && lastSweep == old(lastSweep)
      {
        ArrivedNext(outbox, w.sendFails, k);
        if outbox[k] in w.sendFails {
          failures := failures + 1;
        } else {
          sent := sent + [outbox[k]];
        }
      }
      assert outbox[..|outbox|] == outbox;
      if next != counters {
        if !w.countersSaved {
          return;
        }
        counters := next;
      }
      if w.sweepSaved {
        lastSweep := Some(w.now);
      }
    }
  }

  lemma SweptIs(s: Kept, w: Sweep)
    ensures IsWakeGap(s.lastSweep, w.now) ==> Swept(s, w) == (if w.dryRun || !w.sweepSaved then s else s.(lastSweep := Some(w.now)), [])
    ensures !IsWakeGap(s.lastSweep, w.now) && w.dryRun ==> Swept(s, w) == (s, [])
    ensures !IsWakeGap(s.lastSweep, w.now) && !w.dryRun ==>
              var next := Advance(s.counters, Round(Nudged(w.views, w.now), Held(w.views, w.now)));
              var stopped := next != s.counters && !w.countersSaved;
              Swept(s, w) == (Kept(if w.countersSaved then next else s.counters, if w.sweepSaved && !stopped then Some(w.now) else s.lastSweep),
                              Arrived(Outbox(w.views, w.now, s.counters), w.sendFails))
  {
    hide Advance, Nudged, Held, Outbox, Arrived;
  }

  lemma ArrivedNone(fails: set<Message>)
    ensures Arrived([], fails) == []
  {
  }

  lemma ArrivedNext(outbox: seq<Message>, fails: set<Message>, k: nat)
    requires k < |outbox|
    ensures Arrived(outbox[..k + 1], fails) == Arrived(outbox[..k], fails) + if outbox[k] in fails then [] else [outbox[k]]
  {
    assert outbox[..k + 1][..k] == outbox[..k];
  }

  lemma {:induction false} ArrivedHas(outbox: seq<Message>, fails: set<Message>, m: Message)
    ensures m in Arrived(outbox, fails) <==> m in outbox && m !in fails
  {
    if outbox != [] {
      ArrivedHas(outbox[..|outbox| - 1], fails, m);
      assert outbox == outbox[..|outbox| - 1] + [outbox[|outbox| - 1]];
    }
  }

  lemma SweepIs(views: seq<View>, now: int, counters: Counters, next: Counters, escalate: seq<string>)
    requires var nudged := Members(views, now, Lagging) + Members(views, now, BlockedIdle) + Members(views, now, OpenIdle);
             var held := Members(views, now, LaggingHeld) + Members(views, now, OpenHeld);
             Advanced(counters, nudged, held, next) && escalate == Due(counters, Sorted(nudged))
    ensures next == Advance(counters, Round(Nudged(views, now), Held(views, now)))
    ensures Outbox(views, now, counters) ==
            NudgesTo(Members(views, now, Lagging), Lagging) + NudgesTo(Members(views, now, BlockedIdle), BlockedIdle) +
            NudgesTo(Members(views, now, OpenIdle), OpenIdle) + EscalationsOf(views, now, escalate)
  {
    hide Members, Advance, Advanced, Due, Sorted, NudgesTo, EscalationsOf;
    AdvanceIs(counters, Round(Nudged(views, now), Held(views, now)), next);
  }

  // ---- what one sweep sends ----------------------------------------------

  lemma InNudges(agents: seq<string>, why: Group)
    ensures forall m: Message :: m in NudgesTo(agents, why) <==> m.NudgeTo? && m.why == why && m.agent in agents
  {
    var out := NudgesTo(agents, why);
    forall m: Message | m.NudgeTo? && m.why == why && m.agent in agents ensures m in out {
      var i :| 0 <= i < |agents| && agents[i] == m.agent;
      assert out[i] == m;
    }
  }

  lemma InEscalations(views: seq<View>, now: int, agents: seq<string>)
    ensures forall m: Message :: m in EscalationsOf(views, now, agents) <==>
                        m.EscalationOf? && m.agent in agents && m.why == ReasonFor(views, now, m.agent)
  {
    hide ReasonFor;
    var out := EscalationsOf(views, now, agents);
    forall m: Message | m.EscalationOf? && m.agent in agents && m.why == ReasonFor(views, now, m.agent) ensures m in out {
      var i :| 0 <= i < |agents| && agents[i] == m.agent;
      assert out[i] == m;
    }
  }

  lemma OutboxHas(views: seq<View>, now: int, counters: Counters, m: Message)
    ensures m in Outbox(views, now, counters) <==>
            if m.NudgeTo? then m.why in {Lagging, BlockedIdle, OpenIdle} && m.agent in Members(views, now, m.why)
            else m.agent in Escalated(views, now, counters) && m.why == ReasonFor(views, now, m.agent)
  {
    hide Members, NudgesTo, EscalationsOf, Escalated, ReasonFor;
    InNudges(Members(views, now, Lagging), Lagging);
    InNudges(Members(views, now, BlockedIdle), BlockedIdle);
    InNudges(Members(views, now, OpenIdle), OpenIdle);
    InEscalations(views, now, Escalated(views, now, counters));
  }

  /** Whom a sweep nudges and why, agent by agent: exactly the agents its guards leave, each for one reason; a blocked row of
      an idle agent is nudged with no hold at all. Nobody is escalated who is not nudged in the same sweep, for the same
      reason. */
  lemma OutboxIsRight(views: seq<View>, now: int, counters: Counters, i: nat)
    requires DistinctNames(views) && i < |views|
    ensures var v, out := views[i], Outbox(views, now, counters);
            && (forall why :: NudgeTo(v.name, why) in out <==> why in {Lagging, BlockedIdle, OpenIdle} && GroupOf(v, now) == why)
            && (forall why :: EscalationOf(v.name, why) in out <==>
                              NudgeTo(v.name, why) in out && Tally(counters, v.name) + 1 >= ESCALATE_AT)
  {
    hide *;
    var v, out := views[i], Outbox(views, now, counters);
    forall why: Group ensures v.name in Members(views, now, why) <==> GroupOf(v, now) == why {
      InItsGroup(views, now, i, why);
    }
    forall m: Message ensures m in out <==>
        if m.NudgeTo? then m.why in {Lagging, BlockedIdle, OpenIdle} && m.agent in Members(views, now, m.why)
        else m.agent in Escalated(views, now, counters) && m.why == ReasonFor(views, now, m.agent) {
      OutboxHas(views, now, counters, m);
    }
    EscalatedAre(views, now, counters, v.name);
    ReasonIs(views, now, v.name);
  }

  lemma InItsGroup(views: seq<View>, now: int, i: nat, g: Group)
    requires DistinctNames(views) && i < |views|
    ensures views[i].name in Members(views, now, g) <==> GroupOf(views[i], now) == g
  {
    hide Members, GroupOf;
    MembersAre(views, now, g);
    MembersAre(views, now, GroupOf(views[i], now));
    if views[i].name in Members(views, now, g) {
      GroupsDisjoint(views, now, g, GroupOf(views[i], now), views[i].name);
    }
  }

  lemma EscalatedAre(views: seq<View>, now: int, counters: Counters, a: string)
    ensures a in Escalated(views, now, counters) <==>
            (a in Members(views, now, Lagging) || a in Members(views, now, BlockedIdle) || a in Members(views, now, OpenIdle))
            && Tally(counters, a) + 1 >= ESCALATE_AT
  {
    hide Members, Tally, Due, Sorted;
    DueAre(counters, Sorted(Nudged(views, now)));
    SortedHas(Nudged(views, now));
  }

  lemma ReasonIs(views: seq<View>, now: int, a: string)
    ensures ReasonFor(views, now, a) ==
            if a in Members(views, now, OpenIdle) then OpenIdle else if a in Members(views, now, BlockedIdle) then BlockedIdle else Lagging
  {
    hide Members;
  }
}
