/** Consecutive-nudge counters: one sweep, and any number of sweeps (scripts/blackboard-hygiene.py:248-266, 410-535). */
module NudgeCounters {
  import opened Options
  import opened Nudges

  type Counters = map<string, int>

  // ---- sorted() ----------------------------------------------------------

  /** Code point order, as strings compare. */
  predicate Before(a: string, b: string) {
    a == "" || (b != "" && (a[0] < b[0] || (a[0] == b[0] && Before(a[1..], b[1..]))))
  }

  function Insert(x: string, xs: seq<string>): seq<string> {
    if xs == [] || Before(x, xs[0]) then [x] + xs else [xs[0]] + Insert(x, xs[1..])
  }

  function Sorted(xs: seq<string>): seq<string> {
    if xs == [] then [] else Insert(xs[0], Sorted(xs[1..]))
  }

  predicate Ordered(xs: seq<string>) {
    |xs| <= 1 || (Before(xs[0], xs[1]) && Ordered(xs[1..]))
  }

  /** Strings compare as in a dictionary: a prefix comes first, else the first difference decides. */
  lemma {:induction false} BeforeIff(a: string, b: string)
    ensures Before(a, b) <==> a <= b || exists k :: 0 <= k < |a| && k < |b| && a[..k] == b[..k] && a[k] < b[k]
  {
    if a != "" && b != "" && a[0] == b[0] {
      BeforeIff(a[1..], b[1..]);
      assert a == [a[0]] + a[1..] && b == [b[0]] + b[1..];
      if k :| 0 <= k < |a[1..]| && k < |b[1..]| && a[1..][..k] == b[1..][..k] && a[1..][k] < b[1..][k] {
        assert a[..k + 1] == [a[0]] + a[1..][..k] && b[..k + 1] == [b[0]] + b[1..][..k];
      }
      if k :| 0 <= k < |a| && k < |b| && a[..k] == b[..k] && a[k] < b[k] {
        assert k > 0;
        assert a[1..][..k - 1] == a[..k][1..] && b[1..][..k - 1] == b[..k][1..];
        assert a[1..][k - 1] < b[1..][k - 1];
      }
    } else if a != "" && b != "" {
      if a[0] < b[0] { assert a[..0] == b[..0]; }
      assert forall k :: 0 < k < |a| && k < |b| ==> a[..k][0] != b[..k][0];
    }
  }

  lemma {:induction false} BeforeTotal(a: string, b: string)
    ensures Before(a, b) || Before(b, a)
  {
    if a != "" && b != "" && a[0] == b[0] { BeforeTotal(a[1..], b[1..]); }
  }

  lemma {:induction false} InsertIs(x: string, xs: seq<string>)
    ensures multiset(Insert(x, xs)) == multiset(xs) + multiset{x}
    ensures Ordered(xs) ==> Ordered(Insert(x, xs))
    ensures Insert(x, xs)[0] == if xs == [] || Before(x, xs[0]) then x else xs[0]
  {
    hide Before;
    if xs != [] && !Before(x, xs[0]) {
      InsertIs(x, xs[1..]);
      BeforeTotal(x, xs[0]);
      assert xs == [xs[0]] + xs[1..];
      var rest := Insert(x, xs[1..]);
      assert ([xs[0]] + rest)[1..] == rest;
    } else {
      assert ([x] + xs)[1..] == xs;
    }
  }

  /** The sorted list has each string right before the next, and all of them. */
  lemma SortedInOrder(xs: seq<string>)
    ensures multiset(Sorted(xs)) == multiset(xs)
    ensures forall k :: 0 <= k < |Sorted(xs)| - 1 ==> Before(Sorted(xs)[k], Sorted(xs)[k + 1])
  {
    SortedIs(xs);
    OrderedAt(Sorted(xs));
  }

  lemma {:induction false} OrderedAt(xs: seq<string>)
    requires Ordered(xs)
    ensures forall k :: 0 <= k < |xs| - 1 ==> Before(xs[k], xs[k + 1])
  {
    if |xs| > 1 {
      OrderedAt(xs[1..]);
      forall k | 0 <= k < |xs| - 1 ensures Before(xs[k], xs[k + 1]) { if k > 0 { assert xs[1..][k - 1] == xs[k]; } }
    }
  }

  lemma {:induction false} SortedIs(xs: seq<string>)
    ensures multiset(Sorted(xs)) == multiset(xs) && Ordered(Sorted(xs))
  {
    if xs != [] {
      SortedIs(xs[1..]);
      hide Ordered;
      InsertIs(xs[0], Sorted(xs[1..]));
      assert xs == [xs[0]] + xs[1..];
    }
  }

  lemma SortedHas(xs: seq<string>)
    ensures forall a :: a in Sorted(xs) <==> a in xs
  {
    SortedIs(xs);
    hide Sorted;
    forall a ensures a in Sorted(xs) <==> a in xs {
      assert a in Sorted(xs) <==> a in multiset(Sorted(xs));
      assert a in xs <==> a in multiset(xs);
    }
  }

  // ---- one sweep's counters ----------------------------------------------

  function Tally(counters: Counters, a: string): int {
    if a in counters then counters[a] else 0
  }

  /** The counter an agent is left with. */
  function CounterAfter(counters: Counters, nudged: seq<string>, held: seq<string>, a: string): Option<int> {
    if a in nudged then
      if Tally(counters, a) + 1 >= ESCALATE_AT then None else Some(Tally(counters, a) + 1)
    else if a in held && a in counters then Some(counters[a])
    else None
  }

  function Look(m: Counters, a: string): Option<int> {
    if a in m then Some(m[a]) else None
  }

  ghost predicate Advanced(counters: Counters, nudged: seq<string>, held: seq<string>, next: Counters) {
    forall a :: Look(next, a) == CounterAfter(counters, nudged, held, a)
  }

  /** The nudged agents whose counter is full, in the order of `xs`. */
  function Due(counters: Counters, xs: seq<string>): seq<string> {
    if xs == [] then []
    else Due(counters, xs[..|xs| - 1]) +
         if Tally(counters, xs[|xs| - 1]) + 1 >= ESCALATE_AT then [xs[|xs| - 1]] else []
  }

  /** What has been settled when the agents of `done` have been counted. */
  function Partly(counters: Counters, nudged: seq<string>, held: seq<string>, done: seq<string>, a: string): Option<int> {
    if a in nudged && a !in done then None else CounterAfter(counters, nudged, held, a)
  }

  method NextCounters(counters: Counters, nudged: seq<string>, held: seq<string>) returns (next: Counters, escalate: seq<string>)
    ensures Advanced(counters, nudged, held, next)
    ensures escalate == Due(counters, Sorted(nudged))
  {
    hide *;
    next := map[];
    CarryNone(counters, nudged, held);
    for k := 0 to |held|
      invariant forall a :: Look(next, a) == Carried(counters, nudged, held[..k], a)
    {
      CarryNext(counters, nudged, held, k);
      ghost var was := next;
      if held[k] in counters && held[k] !in nudged {
        next := next[held[k] := counters[held[k]]];
        LookPut(was, held[k], counters[held[k]], next);
      }
    }
    assert held[..|held|] == held;
    CarriedAll(counters, nudged, held);
    escalate := [];
    var sorted := Sorted(nudged);
    SortedHas(nudged);
    assert sorted[..0] == [];
    DueNone(counters);
    for k := 0 to |sorted|
      invariant forall a :: Look(next, a) == Partly(counters, nudged, held, sorted[..k], a)
      invariant escalate == Due(counters, sorted[..k])
    {
      var agent := sorted[k];
      var n := Tally(counters, agent) + 1;
      DueNext(counters, sorted, k);
      PartlyNext(counters, nudged, held, sorted, k);
      ghost var was := next;
      if n >= ESCALATE_AT {
        escalate := escalate + [agent];
      } else {
        next := next[agent := n];
        LookPut(was, agent, n, next);
      }
    }
    assert sorted[..|sorted|] == sorted;
    AllSettled(counters, nudged, held, sorted, next);
  }

  /** The counters carried over for the held agents seen so far. */
  function Carried(counters: Counters, nudged: seq<string>, held: seq<string>, a: string): Option<int> {
    if a in held && a in counters && a !in nudged then Some(counters[a]) else None
  }

  lemma CarryNone(counters: Counters, nudged: seq<string>, held: seq<string>)
    ensures forall a :: Look(map[], a) == Carried(counters, nudged, held[..0], a)
  {
  }

  lemma CarryNext(counters: Counters, nudged: seq<string>, held: seq<string>, k: nat)
    requires k < |held|
    ensures forall a :: Carried(counters, nudged, held[..k + 1], a) ==
                        if a == held[k] && a in counters && a !in nudged then Some(counters[a]) else Carried(counters, nudged, held[..k], a)
  {
    assert held[..k + 1] == held[..k] + [held[k]];
  }

  lemma LookPut(m: Counters, b: string, v: int, n: Counters)
    requires n == m[b := v]
    ensures forall a :: Look(n, a) == if a == b then Some(v) else Look(m, a)
  {
  }

  lemma CarriedAll(counters: Counters, nudged: seq<string>, held: seq<string>)
    ensures forall a :: Partly(counters, nudged, held, [], a) == Carried(counters, nudged, held, a)
  {
  }

  lemma DueNone(counters: Counters)
    ensures Due(counters, []) == []
  {
  }

  lemma DueNext(counters: Counters, xs: seq<string>, k: nat)
    requires k < |xs|
    ensures Due(counters, xs[..k + 1]) == Due(counters, xs[..k]) + if Tally(counters, xs[k]) + 1 >= ESCALATE_AT then [xs[k]] else []
  {
    hide Tally;
    assert xs[..k + 1][..k] == xs[..k];
  }

  lemma PartlyNext(counters: Counters, nudged: seq<string>, held: seq<string>, sorted: seq<string>, k: nat)
    requires k < |sorted| && forall a :: a in sorted <==> a in nudged
    ensures forall a :: Partly(counters, nudged, held, sorted[..k + 1], a) ==
                        if a == sorted[k] then
                          (if Tally(counters, a) + 1 >= ESCALATE_AT then None else Some(Tally(counters, a) + 1))
                        else Partly(counters, nudged, held, sorted[..k], a)
    ensures Tally(counters, sorted[k]) + 1 >= ESCALATE_AT ==> Partly(counters, nudged, held, sorted[..k], sorted[k]) == None
  {
    hide Tally;
    assert sorted[..k + 1] == sorted[..k] + [sorted[k]];
    assert sorted[k] in sorted;
  }

  lemma AllSettled(counters: Counters, nudged: seq<string>, held: seq<string>, sorted: seq<string>, next: Counters)
    requires forall a :: a in sorted <==> a in nudged
    requires forall a :: Look(next, a) == Partly(counters, nudged, held, sorted, a)
    ensures Advanced(counters, nudged, held, next)
  {
    hide CounterAfter, Look;
  }

  lemma {:induction false} DueAre(counters: Counters, xs: seq<string>)
    ensures forall a :: a in Due(counters, xs) <==> a in xs && Tally(counters, a) + 1 >= ESCALATE_AT
  {
    hide Tally;
    if xs != [] {
      DueAre(counters, xs[..|xs| - 1]);
      assert xs == xs[..|xs| - 1] + [xs[|xs| - 1]];
    }
  }

  // ---- many rounds -------------------------------------------------------

  datatype Round = Round(nudged: seq<string>, held: seq<string>)

  function Advance(counters: Counters, r: Round): Counters {
    map a | a in (set x | x in r.nudged + r.held) && CounterAfter(counters, r.nudged, r.held, a).Some? ::
      CounterAfter(counters, r.nudged, r.held, a).value
  }

  /** There is one map a sweep can leave. */
  lemma AdvanceIs(counters: Counters, r: Round, next: Counters)
    ensures Advanced(counters, r.nudged, r.held, next) <==> next == Advance(counters, r)
  {
    hide Tally;
    var all := Advance(counters, r);
    forall a ensures Look(all, a) == CounterAfter(counters, r.nudged, r.held, a) {
      assert a in r.nudged || a in r.held ==> a in r.nudged + r.held;
    }
    hide CounterAfter, Advance;
    if Advanced(counters, r.nudged, r.held, next) {
      forall a ensures a in next <==> a in all { assert Look(next, a) == Look(all, a); }
      forall a | a in next ensures next[a] == all[a] { assert Look(next, a) == Look(all, a); }
    }
  }

  function CountersAt(rounds: seq<Round>, k: nat): Counters
    requires k <= |rounds|
  {
    if k == 0 then map[] else Advance(CountersAt(rounds, k - 1), rounds[k - 1])
  }

  predicate EscalatedAt(rounds: seq<Round>, k: nat, a: string)
    requires k < |rounds|
  {
    a in Due(CountersAt(rounds, k), Sorted(rounds[k].nudged))
  }

  /** The first round after the last one that neither nudged nor held the agent. */
  function Since(rounds: seq<Round>, k: nat, a: string): (i: nat)
    requires k <= |rounds|
    ensures i <= k
  {
    if k == 0 then 0
    else if a !in rounds[k - 1].nudged && a !in rounds[k - 1].held then k
    else Since(rounds, k - 1, a)
  }

  /** How many of the rounds from `i` up to `k` nudged the agent. */
  function NudgedRounds(rounds: seq<Round>, i: nat, k: nat, a: string): nat
    requires i <= k <= |rounds|
  {
    if i == k then 0 else NudgedRounds(rounds, i, k - 1, a) + if a in rounds[k - 1].nudged then 1 else 0
  }

  lemma AdvanceOne(counters: Counters, r: Round, a: string)
    ensures Look(Advance(counters, r), a) == CounterAfter(counters, r.nudged, r.held, a)
  {
    AdvanceIs(counters, r, Advance(counters, r));
    hide Advance, CounterAfter, Look;
  }

  lemma CountStep(n: nat)
    ensures n % ESCALATE_AT + 1 >= ESCALATE_AT ==> (n + 1) % ESCALATE_AT == 0
    ensures n % ESCALATE_AT + 1 < ESCALATE_AT ==> (n + 1) % ESCALATE_AT == n % ESCALATE_AT + 1
  {
  }

  /** The stored counter is the number of nudged rounds of the current stretch, counted modulo the escalation threshold,
      and a zero is not stored. */
  lemma {:induction false} CounterIs(rounds: seq<Round>, k: nat, a: string)
    requires k <= |rounds|
    ensures var n := NudgedRounds(rounds, Since(rounds, k, a), k, a) % ESCALATE_AT;
            Look(CountersAt(rounds, k), a) == if n == 0 then None else Some(n)
  {
    hide *;
    if k > 0 {
      var r, n := rounds[k - 1], NudgedRounds(rounds, Since(rounds, k - 1, a), k - 1, a);
      CounterIs(rounds, k - 1, a);
      OneRound(rounds, k - 1, a);
      AdvanceOne(CountersAt(rounds, k - 1), r, a);
      AfterIs(CountersAt(rounds, k - 1), r, a);
      CountStep(n);
      NudgedNext(rounds, Since(rounds, k - 1, a), k - 1, a);
    } else {
      NoRounds(rounds, a);
    }
  }

  lemma NoRounds(rounds: seq<Round>, a: string)
    ensures Look(CountersAt(rounds, 0), a) == None && NudgedRounds(rounds, Since(rounds, 0, a), 0, a) % ESCALATE_AT == 0
  {
  }

  lemma OneRound(rounds: seq<Round>, k: nat, a: string)
    requires k < |rounds|
    ensures CountersAt(rounds, k + 1) == Advance(CountersAt(rounds, k), rounds[k])
    ensures var dropped := a !in rounds[k].nudged && a !in rounds[k].held;
            && (!dropped ==> Since(rounds, k + 1, a) == Since(rounds, k, a))
            && (dropped ==> NudgedRounds(rounds, Since(rounds, k + 1, a), k + 1, a) % ESCALATE_AT == 0)
  {
    hide Advance;
  }

  lemma AfterIs(counters: Counters, r: Round, a: string)
    ensures var before, after := Look(counters, a), CounterAfter(counters, r.nudged, r.held, a);
            var n := if before.None? then 0 else before.value;
            && (a in r.nudged ==> after == if n + 1 >= ESCALATE_AT then None else Some(n + 1))
            && (a !in r.nudged && a in r.held ==> after == before)
            && (a !in r.nudged && a !in r.held ==> after == None)
  {
  }

  /** Stored counters stay between 1 and one below the threshold. */
  lemma CountersInRange(rounds: seq<Round>, k: nat)
    requires k <= |rounds|
    ensures forall a :: a in CountersAt(rounds, k) ==> 1 <= CountersAt(rounds, k)[a] < ESCALATE_AT
  {
    forall a | a in CountersAt(rounds, k) ensures 1 <= CountersAt(rounds, k)[a] < ESCALATE_AT {
      CounterIs(rounds, k, a);
      hide CountersAt;
    }
  }

  /** From no counters: an agent is escalated at exactly every ESCALATE_AT-th nudged round of a stretch in which each round
      nudged or held it. */
  lemma EscalatedIff(rounds: seq<Round>, k: nat, a: string)
    requires k < |rounds|
    ensures EscalatedAt(rounds, k, a) <==>
            a in rounds[k].nudged && NudgedRounds(rounds, Since(rounds, k, a), k + 1, a) % ESCALATE_AT == 0
  {
    hide *;
    CounterIs(rounds, k, a);
    var n, counters := NudgedRounds(rounds, Since(rounds, k, a), k, a), CountersAt(rounds, k);
    CountStep(n);
    NudgedNext(rounds, Since(rounds, k, a), k, a);
    DueAre(counters, Sorted(rounds[k].nudged));
    SortedHas(rounds[k].nudged);
    EscalatedIs(rounds, k, a);
    TallyIs(counters, a);
  }

  lemma EscalatedIs(rounds: seq<Round>, k: nat, a: string)
    requires k < |rounds|
    ensures EscalatedAt(rounds, k, a) <==> a in Due(CountersAt(rounds, k), Sorted(rounds[k].nudged))
  {
  }

  lemma TallyIs(counters: Counters, a: string)
    ensures Tally(counters, a) == if Look(counters, a).None? then 0 else Look(counters, a).value
  {
  }

  lemma NudgedNext(rounds: seq<Round>, i: nat, k: nat, a: string)
    requires i <= k < |rounds|
    ensures NudgedRounds(rounds, i, k + 1, a) == NudgedRounds(rounds, i, k, a) + if a in rounds[k].nudged then 1 else 0
  {
  }

  lemma {:induction false} SameStretch(rounds: seq<Round>, i: nat, k: nat, a: string)
    requires i <= k <= |rounds| && forall m :: i <= m < k ==> a in rounds[m].nudged || a in rounds[m].held
    ensures Since(rounds, k, a) == Since(rounds, i, a)
  {
    if i < k { SameStretch(rounds, i, k - 1, a); }
  }

  lemma {:induction false} NudgedAdds(rounds: seq<Round>, i: nat, j: nat, k: nat, a: string)
    requires i <= j <= k <= |rounds|
    ensures NudgedRounds(rounds, i, k, a) == NudgedRounds(rounds, i, j, a) + NudgedRounds(rounds, j, k, a)
  {
    if j < k { NudgedAdds(rounds, i, j, k - 1, a); }
  }

  /** Between two escalations with the agent nudged or held in every round lies a positive multiple of ESCALATE_AT nudging
      rounds. The rounds are those whose counters were saved; HygieneRuns says what happens to the others. */
  lemma EscalationsSpaced(rounds: seq<Round>, i: nat, j: nat, a: string)
    requires i < j < |rounds| && EscalatedAt(rounds, i, a) && EscalatedAt(rounds, j, a)
    requires forall m :: i <= m < j ==> a in rounds[m].nudged || a in rounds[m].held
    ensures NudgedRounds(rounds, i + 1, j + 1, a) >= ESCALATE_AT && NudgedRounds(rounds, i + 1, j + 1, a) % ESCALATE_AT == 0
  {
    hide EscalatedAt, Since;
    EscalatedIff(rounds, i, a);
    EscalatedIff(rounds, j, a);
    SameStretch(rounds, i, j, a);
    NudgedAdds(rounds, Since(rounds, i, a), i + 1, j + 1, a);
    assert NudgedRounds(rounds, i + 1, j + 1, a) >= 1;
  }
}
