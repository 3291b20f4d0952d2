/** Runs of the hygiene monitor: how often the owner and the agents hear of it when sends and state writes can fail. */
module HygieneRuns {
  import opened Options
  import opened Nudges
  import opened NudgeCounters
  import opened HygieneSweep

  function KeptAt(run: seq<Sweep>, k: nat): Kept
    requires k <= |run|
  {
    if k == 0 then Kept(map[], None) else Swept(KeptAt(run, k - 1), run[k - 1]).0
  }

  function SentAt(run: seq<Sweep>, k: nat): seq<Message>
    requires k < |run|
  {
    Swept(KeptAt(run, k), run[k]).1
  }

  /** The sweep got as far as sending. */
  predicate Real(run: seq<Sweep>, k: nat)
    requires k < |run|
  {
    !run[k].dryRun && !IsWakeGap(KeptAt(run, k).lastSweep, run[k].now)
  }

  /** The rounds whose counters were saved. */
  function SavedRounds(run: seq<Sweep>, k: nat): seq<Round>
    requires k <= |run|
  {
    if k == 0 then []
    else SavedRounds(run, k - 1) + if Real(run, k - 1) && run[k - 1].countersSaved then [RoundOf(run[k - 1])] else []
  }

  lemma KeptNext(run: seq<Sweep>, k: nat)
    requires k < |run|
    ensures KeptAt(run, k + 1).counters ==
            if Real(run, k) && run[k].countersSaved then Advance(KeptAt(run, k).counters, RoundOf(run[k])) else KeptAt(run, k).counters
    ensures SentAt(run, k) == if Real(run, k) then Arrived(Outbox(run[k].views, run[k].now, KeptAt(run, k).counters), run[k].sendFails) else []
  {
    hide Advance, RoundOf, Outbox, Arrived;
  }

  lemma SavedNext(run: seq<Sweep>, k: nat)
    requires k < |run|
    ensures SavedRounds(run, k + 1) == SavedRounds(run, k) + if Real(run, k) && run[k].countersSaved then [RoundOf(run[k])] else []
  {
    hide Real, RoundOf;
  }

  /** The counters after a prefix of the rounds do not depend on the rest. */
  lemma {:induction false} CountersPrefix(rs: seq<Round>, more: seq<Round>, n: nat)
    requires n <= |rs| && n <= |more| && rs[..n] == more[..n]
    ensures CountersAt(rs, n) == CountersAt(more, n)
  {
    hide Advance;
    if n > 0 {
      assert rs[..n][..n - 1] == rs[..n - 1] && more[..n][..n - 1] == more[..n - 1];
      assert rs[n - 1] == rs[..n][n - 1] == more[n - 1];
      CountersPrefix(rs, more, n - 1);
    }
  }

  /** The monitor's counters are those of the saved rounds. */
  lemma {:induction false} CountersAreSaved(run: seq<Sweep>, k: nat)
    requires k <= |run|
    ensures KeptAt(run, k).counters == CountersAt(SavedRounds(run, k), |SavedRounds(run, k)|)
  {
    NothingSaved(run);
    hide *;
    if k > 0 {
      CountersAreSaved(run, k - 1);
      KeptNext(run, k - 1);
      SavedNext(run, k - 1);
      CountersOneMore(SavedRounds(run, k - 1), RoundOf(run[k - 1]));
      assert SavedRounds(run, k - 1) + [] == SavedRounds(run, k - 1);
    }
  }

  lemma NothingSaved(run: seq<Sweep>)
    ensures KeptAt(run, 0).counters == map[] && SavedRounds(run, 0) == [] && CountersAt([], 0) == map[]
  {
  }

  lemma CountersOneMore(rs: seq<Round>, r: Round)
    ensures CountersAt(rs + [r], |rs| + 1) == Advance(CountersAt(rs, |rs|), r)
    ensures CountersAt(rs + [r], |rs|) == CountersAt(rs, |rs|)
  {
    hide Advance;
    CountersPrefix(rs, rs + [r], |rs|);
  }

  lemma SavedGrow(run: seq<Sweep>, i: nat, j: nat)
    requires i <= j <= |run|
    ensures SavedRounds(run, i) <= SavedRounds(run, j)
    decreases j - i
  {
    hide Real, RoundOf;
    if i < j {
      SavedGrow(run, i, j - 1);
      SavedNext(run, j - 1);
      PrefixPlus(SavedRounds(run, i), SavedRounds(run, j - 1), if Real(run, j - 1) && run[j - 1].countersSaved then [RoundOf(run[j - 1])] else []);
    }
  }

  lemma PrefixPlus(a: seq<Round>, b: seq<Round>, c: seq<Round>)
    requires a <= b
    ensures a <= b + c
  {
  }

  predicate EscalatedIn(run: seq<Sweep>, k: nat, a: string)
    requires k < |run|
  {
    Real(run, k) && a in Escalated(run[k].views, run[k].now, KeptAt(run, k).counters)
  }

  /** The saved rounds before the k-th sweep, and its own. */
  function Counted(run: seq<Sweep>, k: nat): seq<Round>
    requires k < |run|
  {
    SavedRounds(run, k) + [RoundOf(run[k])]
  }

  lemma EscalatedInIs(run: seq<Sweep>, k: nat, a: string)
    requires k < |run| && Real(run, k)
    ensures var rs := Counted(run, k); EscalatedIn(run, k, a) <==> EscalatedAt(rs, |rs| - 1, a)
  {
    hide CountersAt, Advance, Due, Sorted, Nudged, Held, SavedRounds, Real, KeptAt;
    CountersAreSaved(run, k);
    CountersOneMore(SavedRounds(run, k), RoundOf(run[k]));
  }

  /** From no counters: a sweep that sends escalates an agent exactly when it nudges it and this is the ESCALATE_AT-th (or twice,
      three times that) nudging round of its stretch, counting this round and the earlier ones whose counters were saved. */
  lemma MonitorEscalatedIff(run: seq<Sweep>, k: nat, a: string)
    requires k < |run| && Real(run, k)
    ensures var rs := Counted(run, k); var n := |rs| - 1;
            EscalatedIn(run, k, a) <==> a in rs[n].nudged && NudgedRounds(rs, Since(rs, n, a), n + 1, a) % ESCALATE_AT == 0
  {
    hide *;
    EscalatedInIs(run, k, a);
    CountedLong(run, k);
    EscalatedIff(Counted(run, k), |Counted(run, k)| - 1, a);
  }

  lemma CountedLong(run: seq<Sweep>, k: nat)
    requires k < |run|
    ensures var rs, n := Counted(run, k), |SavedRounds(run, k)|; |rs| == n + 1 && rs[n] == RoundOf(run[k]) && rs[..n] == SavedRounds(run, k)
  {
    hide SavedRounds, RoundOf;
  }

  /** An escalation whose counters were saved, and a later one with every saved round between them nudging or holding the
      agent: a positive multiple of ESCALATE_AT nudging rounds lies between them. */
  lemma MonitorEscalationsSpaced(run: seq<Sweep>, i: nat, j: nat, a: string)
    requires i < j < |run| && EscalatedIn(run, i, a) && EscalatedIn(run, j, a) && run[i].countersSaved
    requires var rs := Counted(run, j);
             forall m :: |SavedRounds(run, i)| <= m < |rs| - 1 ==> a in rs[m].nudged || a in rs[m].held
    ensures var rs, from := Counted(run, j), |SavedRounds(run, i)| + 1;
            && from <= |rs| && NudgedRounds(rs, from, |rs|, a) >= ESCALATE_AT && NudgedRounds(rs, from, |rs|, a) % ESCALATE_AT == 0
  {
    hide *;
    var rs, n := Counted(run, j), |SavedRounds(run, i)|;
    RealWas(run, i, a);
    RealWas(run, j, a);
    EscalatedInIs(run, i, a);
    EscalatedInIs(run, j, a);
    CountedLong(run, i);
    CountedLong(run, j);
    SavedNext(run, i);
    SavedGrow(run, i + 1, j);
    SameEscalation(Counted(run, i), rs, n, a);
    EscalationsSpaced(rs, n, |rs| - 1, a);
  }

  lemma RealWas(run: seq<Sweep>, k: nat, a: string)
    requires k < |run| && EscalatedIn(run, k, a)
    ensures Real(run, k)
  {
  }

  lemma SameEscalation(rs: seq<Round>, more: seq<Round>, n: nat, a: string)
    requires |rs| == n + 1 && n + 1 <= |more| && more[..n + 1] == rs
    ensures EscalatedAt(rs, n, a) <==> EscalatedAt(more, n, a)
  {
    hide Due, Sorted, CountersAt;
    assert rs[..n] == more[..n] && rs[n] == more[n];
    CountersPrefix(rs, more, n);
  }

  /** No sweep between `i` and `j` got as far as sending. */
  ghost predicate NextReal(run: seq<Sweep>, i: nat, j: nat)
    requires j < |run|
  {
    i < j && Real(run, i) && Real(run, j) && forall m :: i < m < j ==> !Real(run, m)
  }

  lemma {:induction false} KeptBetween(run: seq<Sweep>, i: nat, j: nat)
    requires i < j < |run| && forall m :: i < m < j ==> !Real(run, m)
    ensures KeptAt(run, j).counters == KeptAt(run, i + 1).counters
    decreases j - i
  {
    hide Real, Swept;
    if i + 1 < j {
      KeptBetween(run, i, j - 1);
      KeptNext(run, j - 1);
    }
  }

  /** The exact condition for being told twice: an escalated agent that is nudged again in the next round is escalated again
      exactly when the counters of the first round were not saved. */
  lemma EscalatedAgainIff(run: seq<Sweep>, i: nat, j: nat, a: string)
    requires j < |run| && NextReal(run, i, j) && EscalatedIn(run, i, a) && a in RoundOf(run[j]).nudged
    ensures EscalatedIn(run, j, a) <==> !run[i].countersSaved
  {
    hide KeptAt, Real, Advance, Due, Sorted, Members;
    KeptBetween(run, i, j);
    KeptNext(run, i);
    var c, d := KeptAt(run, i).counters, KeptAt(run, j).counters;
    DueAre(c, Sorted(Nudged(run[i].views, run[i].now)));
    DueAre(d, Sorted(Nudged(run[j].views, run[j].now)));
    SortedHas(Nudged(run[i].views, run[i].now));
    SortedHas(Nudged(run[j].views, run[j].now));
    AdvanceOne(c, RoundOf(run[i]), a);
    hide Nudged, Held;
  }

  // ---- when a sweep sends ------------------------------------------------

  /** The sweep writes down its time: not in a dry run, not when that write throws, and not when the write of changed counters
      before it threw. */
  predicate Recorded(run: seq<Sweep>, k: nat)
    requires k < |run|
  {
    var w, s := run[k], KeptAt(run, k);
    !w.dryRun && w.sweepSaved && (Real(run, k) && !w.countersSaved ==> Advance(s.counters, RoundOf(w)) == s.counters)
  }

  /** The monitor remembers the last sweep that wrote down its time. */
  lemma {:induction false} LastSweepIs(run: seq<Sweep>, k: nat)
    requires k <= |run|
    ensures match KeptAt(run, k).lastSweep
            case None => forall m :: 0 <= m < k ==> !Recorded(run, m)
            case Some(t) => exists m :: 0 <= m < k && Recorded(run, m) && t == run[m].now && forall n :: m < n < k ==> !Recorded(run, n)
  {
    hide Real, Recorded, Swept;
    if k > 0 {
      LastSweepIs(run, k - 1);
      SweepNext(run, k - 1);
      if Recorded(run, k - 1) {
        assert KeptAt(run, k).lastSweep == Some(run[k - 1].now);
      }
    }
  }

  lemma SweepNext(run: seq<Sweep>, k: nat)
    requires k < |run|
    ensures KeptAt(run, k + 1).lastSweep == if Recorded(run, k) then Some(run[k].now) else KeptAt(run, k).lastSweep
  {
    hide Advance, RoundOf, Outbox, Arrived;
    SweptIs(KeptAt(run, k), run[k]);
  }

  /** When a sweep sends: never in a dry run, and not when the last sweep that wrote down its time lies more than 75 minutes back,
      as it does after the machine has slept. */
  lemma SendsIff(run: seq<Sweep>, k: nat)
    requires k < |run|
    ensures Real(run, k) <==>
            && !run[k].dryRun
            && forall m :: 0 <= m < k && Recorded(run, m) && (forall n :: m < n < k ==> !Recorded(run, n)) ==>
                             run[k].now - run[m].now <= 75 * 60
  {
    LastSweepIs(run, k);
    hide Recorded, KeptAt;
  }

  // ---- what the owner is told --------------------------------------------

  /** Word of the agent gets out in the k-th sweep. */
  ghost predicate Told(run: seq<Sweep>, k: nat, a: string)
    requires k < |run|
  {
    exists why :: EscalationOf(a, why) in SentAt(run, k)
  }

  /** The word that would go out of the agent. */
  function WordOf(run: seq<Sweep>, k: nat, a: string): Message
    requires k < |run|
  {
    EscalationOf(a, ReasonFor(run[k].views, run[k].now, a))
  }

  lemma ToldIs(run: seq<Sweep>, k: nat, a: string)
    requires k < |run|
    ensures Told(run, k, a) <==> EscalatedIn(run, k, a) && WordOf(run, k, a) !in run[k].sendFails
  {
    hide Real, Outbox, Arrived, Escalated, ReasonFor, Swept, KeptAt;
    var c := KeptAt(run, k).counters;
    KeptNext(run, k);
    forall why: Group
      ensures EscalationOf(a, why) in SentAt(run, k) <==> EscalatedIn(run, k, a) && EscalationOf(a, why) == WordOf(run, k, a)
                                                          && WordOf(run, k, a) !in run[k].sendFails
    {
      OutboxHas(run[k].views, run[k].now, c, EscalationOf(a, why));
      ArrivedHas(Outbox(run[k].views, run[k].now, c), run[k].sendFails, EscalationOf(a, why));
    }
    hide SentAt;
    assert EscalatedIn(run, k, a) && WordOf(run, k, a) !in run[k].sendFails ==> WordOf(run, k, a) in SentAt(run, k);
  }

  /** Exactly when the owner is told of an agent: a sweep that sends nudges it for the ESCALATE_AT-th counted time of its stretch
      (or twice, three times that), and the word gets out. */
  lemma OwnerToldIff(run: seq<Sweep>, k: nat, a: string)
    requires k < |run|
    ensures var rs := Counted(run, k); var n := |rs| - 1;
            Told(run, k, a) <==>
            && Real(run, k) && a in rs[n].nudged && NudgedRounds(rs, Since(rs, n, a), n + 1, a) % ESCALATE_AT == 0
            && WordOf(run, k, a) !in run[k].sendFails
  {
    hide *;
    ToldIs(run, k, a);
    CountedLong(run, k);
    if Real(run, k) {
      MonitorEscalatedIff(run, k, a);
    } else if EscalatedIn(run, k, a) {
      RealWas(run, k, a);
    }
  }

  /** A word that did not get out is made up for in the next round that nudges the agent exactly when the counters were not saved
      either: saved counters start over although the owner heard nothing. */
  lemma LostWordIff(run: seq<Sweep>, i: nat, j: nat, a: string)
    requires j < |run| && NextReal(run, i, j) && EscalatedIn(run, i, a) && WordOf(run, i, a) in run[i].sendFails
    requires a in RoundOf(run[j]).nudged
    ensures !Told(run, i, a)
    ensures Told(run, j, a) <==> !run[i].countersSaved && WordOf(run, j, a) !in run[j].sendFails
  {
    hide *;
    NextRealIs(run, i, j);
    ToldIs(run, i, a);
    ToldIs(run, j, a);
    EscalatedAgainIff(run, i, j, a);
  }

  lemma NextRealIs(run: seq<Sweep>, i: nat, j: nat)
    requires j < |run| && NextReal(run, i, j)
    ensures i < j && Real(run, i) && Real(run, j)
  {
    hide Real;
  }

  // ---- how often an agent is nudged --------------------------------------

  lemma SentMeans(run: seq<Sweep>, k: nat, a: string, why: Group)
    requires k < |run| && NudgeTo(a, why) in SentAt(run, k)
    ensures exists v :: v in run[k].views && v.name == a && GroupOf(v, run[k].now) == why
  {
    hide *;
    KeptNext(run, k);
    var outbox := Outbox(run[k].views, run[k].now, KeptAt(run, k).counters);
    ArrivedHas(outbox, run[k].sendFails, NudgeTo(a, why));
    OutboxHas(run[k].views, run[k].now, KeptAt(run, k).counters, NudgeTo(a, why));
    MembersAre(run[k].views, run[k].now, why);
    var n :| 0 <= n < |run[k].views| && run[k].views[n].name == a && GroupOf(run[k].views[n], run[k].now) == why;
    assert run[k].views[n] in run[k].views;
  }

  /** The monitor sees no nudge to the agent from time `t` or later: the one sent then was failed by the router, or has fallen
      out of the list. */
  predicate Forgotten(v: View, t: int) {
    v.nudge.None? || v.nudge.value.ts < t
  }

  /** Two nudges that got out to one agent, the second to a lagging agent or over an open row: unless the first is forgotten,
      they are at least the cooldown apart or the row was updated after the first; and at least the longer hold apart if a
      nudge is then still undelivered. */
  lemma NudgesAreSpaced(run: seq<Sweep>, i: nat, j: nat, a: string, first: Group, second: Group)
    requires i < j < |run| && second in {Lagging, OpenIdle}
    requires NudgeTo(a, first) in SentAt(run, i) && NudgeTo(a, second) in SentAt(run, j)
    ensures exists v :: v in run[j].views && v.name == a && (Forgotten(v, run[i].now) ||
              (&& (run[j].now - run[i].now >= NUDGE_COOLDOWN || (v.row.Some? && v.row.value.updatedAt > run[i].now))
               && (v.nudge.value.pending ==> run[j].now - run[i].now >= PENDING_HOLD)))
  {
    hide SentAt;
    SentMeans(run, j, a, second);
    var v :| v in run[j].views && v.name == a && GroupOf(v, run[j].now) == second;
    if v.nudge.Some? { HoldMeans(v, run[j].now); }
  }

  lemma HoldMeans(v: View, now: int)
    requires GroupOf(v, now) in {Lagging, OpenIdle} && v.nudge.Some?
    ensures var age := now - v.nudge.value.ts;
            && (age >= NUDGE_COOLDOWN || (v.row.Some? && v.row.value.updatedAt > v.nudge.value.ts))
            && (v.nudge.value.pending ==> age >= PENDING_HOLD)
  {
  }
}
