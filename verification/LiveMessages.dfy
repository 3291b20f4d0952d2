/** The messages of one update in a run of the coordinator: createHandoffMessage and markEventDelivered are two calls, a mark
    that throws leaves a message no row points at, and a message that is lost is replaced. */
module LiveMessages {
  import opened Options
  import opened Coordinator

  predicate Live(s: Store, k: nat) {
    k < |s.messages| && s.messages[k].status.InFlight?
  }

  predicate PointsAt(s: Store, k: nat)
    requires k < |s.messages|
  {
    s.messages[k].updateId in s.rows && s.rows[s.messages[k].updateId] == Some(k)
  }

  predicate MarkThrew(m: Message, env: Env) {
    m.updateId in (if m.byBatch then env.markFails else env.replayMarkFails)
  }

  /** From `s` to `t`: a live old message was live before and keeps the row that points at it; a live new message has a row
      pointing at it, or its mark threw. */
  ghost predicate Accounts(s: Store, t: Store, env: Env) {
    && |s.messages| <= |t.messages|
    && (forall k :: 0 <= k < |s.messages| ==> t.messages[k].updateId == s.messages[k].updateId && t.messages[k].byBatch == s.messages[k].byBatch)
    && (forall k :: 0 <= k < |s.messages| && Live(t, k) ==> Live(s, k) && (PointsAt(s, k) ==> PointsAt(t, k)))
    && (forall k :: |s.messages| <= k < |t.messages| && Live(t, k) ==> PointsAt(t, k) || MarkThrew(t.messages[k], env))
  }

  lemma AccountsTwice(s: Store, t: Store, u: Store, env: Env)
    requires Accounts(s, t, env) && Accounts(t, u, env)
    ensures Accounts(s, u, env)
  {
    hide PointsAt, MarkThrew, Live;
    forall k | |s.messages| <= k < |u.messages| && Live(u, k) ensures PointsAt(u, k) || MarkThrew(u.messages[k], env) {
      if k < |t.messages| { SameMark(t.messages[k], u.messages[k], env); }
    }
  }

  lemma SameMark(a: Message, b: Message, env: Env)
    requires a.updateId == b.updateId && a.byBatch == b.byBatch
    ensures MarkThrew(a, env) <==> MarkThrew(b, env)
  {
  }

  lemma AccountsSelf(s: Store, env: Env, offset: int)
    ensures Accounts(s, s.(offset := offset), env) && Accounts(s, s, env)
  {
  }

  lemma LoseAccounts(s: Store, lost: map<nat, Loss>, env: Env)
    ensures Accounts(s, Lose(s, lost), env)
  {
  }

  /** A handoff of an event that waits takes no row away from a live message. */
  lemma HandOffAccounts(s: Store, id: int, byBatch: bool, env: Env)
    requires id in s.rows && NeedsHandoff(s, id)
    ensures Accounts(s, HandOff(s, id, byBatch, id !in (if byBatch then env.markFails else env.replayMarkFails)), env)
  {
  }

  lemma {:induction false} ReplayAccounts(s: Store, ids: seq<int>, env: Env)
    requires Books(s) && Distinct(ids) && forall k :: 0 <= k < |ids| ==> ids[k] in s.rows && NeedsHandoff(s, ids[k])
    ensures Accounts(s, Replay(s, ids, env), env)
    decreases |ids|
  {
    hide Books, NeedsHandoff, Accounts, HandOff, Distinct;
    if ids == [] {
      AccountsSelf(s, env, 0);
    } else {
      var n := |ids| - 1;
      var before := Replay(s, ids[..n], env);
      Front(ids);
      ReplayAccounts(s, ids[..n], env);
      if ids[n] !in env.replayCreateFails {
        StillNeeds(s, ids[..n], env, ids[n]);
        HandOffAccounts(before, ids[n], false, env);
        AccountsTwice(s, before, Replay(s, ids, env), env);
      }
    }
  }

  lemma Front(ids: seq<int>)
    requires ids != [] && Distinct(ids)
    ensures Distinct(ids[..|ids| - 1]) && ids[|ids| - 1] !in ids[..|ids| - 1]
  {
  }

  /** An event the replay has not come to yet still waits. */
  lemma StillNeeds(s: Store, ids: seq<int>, env: Env, id: int)
    requires Books(s) && Distinct(ids) && id !in ids && id in s.rows && NeedsHandoff(s, id)
    ensures id in Replay(s, ids, env).rows && NeedsHandoff(Replay(s, ids, env), id)
  {
    hide Books, Distinct;
    RowsPoint(s, id);
    ReplayOne(s, ids, env, id);
  }

  lemma {:induction false} TakeAllAccounts(s: Store, updates: seq<Update>, env: Env)
    ensures Accounts(s, TakeAll(s, updates, env), env)
    decreases |updates|
  {
    hide Accounts, Take;
    if updates == [] {
      AccountsSelf(s, env, 0);
    } else {
      var n := |updates| - 1;
      var before := TakeAll(s, updates[..n], env);
      TakeAllAccounts(s, updates[..n], env);
      TakeAccounts(before, updates[n], env);
      AccountsTwice(s, before, TakeAll(s, updates, env), env);
    }
  }

  lemma TakeAccounts(s: Store, u: Update, env: Env)
    ensures Accounts(s, Take(s, u, env), env)
  {
    hide HandOff;
    AccountsSelf(s, env, s.offset);
    if u.mapped && u.id !in env.insertFails && u.id !in s.rows {
      var inserted := s.(rows := s.rows[u.id := None], order := s.order + [u.id]);
      assert Accounts(s, inserted, env);
      if u.id !in env.createFails {
        HandOffAccounts(inserted, u.id, true, env);
        hide Accounts;
        AccountsTwice(s, inserted, Take(s, u, env), env);
      }
    }
  }

  lemma AwakeAccounts(c: Core, env: Env)
    requires Books(c.store)
    ensures Accounts(c.store, Awake(c, env).store, env)
  {
    hide Books, Accounts, Lose, FirstNeeding, Replay;
    var s := Lose(c.store, env.lost);
    LoseKeeps(c.store, env.lost);
    LoseAccounts(c.store, env.lost, env);
    if env.queryOk {
      FirstNeedingMembers(s);
      ReplayAccounts(s, FirstNeeding(s), env);
      AccountsTwice(c.store, s, Reconciled(s, env), env);
    }
  }

  lemma StepAccounts(c: Core, env: Env)
    requires Books(c.store)
    ensures Accounts(c.store, Step(c, env).0.store, env)
  {
    hide Books, Accounts, Grows, Awake, TakeAll, MaxId;
    var (n, e) := Step(c, env);
    var s := Awake(c, env).store;
    StepStore(c, env);
    AwakeAccounts(c, env);
    AccountsSelf(c.store, env, 0);
    hide Step;
    if e.Processed? {
      var t := TakeAll(s, e.updates, env);
      TakeAllAccounts(s, e.updates, env);
      AccountsTwice(c.store, s, t, env);
      AccountsSelf(t, env, n.store.offset);
      AccountsTwice(c.store, t, n.store, env);
    } else if e.Seeded? {
      AccountsSelf(s, env, n.store.offset);
      AccountsTwice(c.store, s, n.store, env);
    }
  }

  // ---- every live message is pointed at ----------------------------------

  /** Every live message of the update is the one its row points at. */
  ghost predicate AllPointed(s: Store, id: int) {
    forall k: nat :: Live(s, k) && s.messages[k].updateId == id ==> PointsAt(s, k)
  }

  /** Two messages of the update are under way. */
  ghost predicate TwoLive(s: Store, id: int, a: nat, b: nat) {
    a != b && Live(s, a) && Live(s, b) && s.messages[a].updateId == id && s.messages[b].updateId == id
  }

  ghost predicate Doubled(s: Store, id: int) {
    exists a, b :: TwoLive(s, id, a, b)
  }

  lemma PointedOnce(s: Store, id: int)
    requires AllPointed(s, id)
    ensures !Doubled(s, id)
  {
  }

  predicate MarksThrough(env: Env, id: int) {
    id !in env.markFails && id !in env.replayMarkFails
  }

  lemma PointedNext(s: Store, t: Store, env: Env, id: int)
    requires Accounts(s, t, env) && AllPointed(s, id) && MarksThrough(env, id)
    ensures AllPointed(t, id)
  {
    hide PointsAt;
    forall k: nat | Live(t, k) && t.messages[k].updateId == id ensures PointsAt(t, k) {
      if k < |s.messages| { assert s.messages[k].updateId == id; }
    }
  }

  // ---- whole runs --------------------------------------------------------

  lemma {:induction false} RunPointed(r: Run, j: nat, id: int)
    requires Books(r.start.store) && j <= |r.envs| && AllPointed(r.start.store, id)
    requires forall i :: 0 <= i < j ==> MarksThrough(r.envs[i], id)
    ensures AllPointed(r.Before(j).store, id)
    decreases j
  {
    hide *;
    if j == 0 {
      StartIs(r);
    } else {
      RunPointed(r, j - 1, id);
      RunBooks(r, j - 1);
      StepAccounts(r.Before(j - 1), r.envs[j - 1]);
      Unroll(r, j - 1);
      PointedNext(r.Before(j - 1).store, r.Before(j).store, r.envs[j - 1], id);
    }
  }

  lemma StartIs(r: Run)
    ensures r.Before(0) == r.start
  {
    hide Step;
  }

  /** Where the row of the update points at each of its live messages and every mark of it comes through, it has at most one
      message under way, whatever else throws. */
  lemma NoDoubleLive(r: Run, j: nat, id: int)
    requires Books(r.start.store) && j <= |r.envs| && AllPointed(r.start.store, id)
    requires forall i :: 0 <= i < j ==> MarksThrough(r.envs[i], id)
    ensures !Doubled(r.Before(j).store, id)
  {
    RunPointed(r, j, id);
    hide Step;
    PointedOnce(r.Before(j).store, id);
  }

  // ---- a mark that throws doubles ----------------------------------------

  /** An event whose row does not point at its live message goes on waiting, and the next replay that reaches it and can
      create doubles the message: exactly then, as long as the router has not given up on the first. */
  lemma ReplayDoubles(s: Store, env: Env, id: int, k: nat)
    requires Books(s) && env.queryOk && Live(s, k) && s.messages[k].updateId == id && NeedsHandoff(s, id)
    ensures var t := Reconciled(s, env);
            (exists b :: b >= |s.messages| && TwoLive(t, id, k, b)) <==> id in FirstNeeding(s) && id !in env.replayCreateFails
  {
    hide Books, NeedsHandoff, FirstNeeding, Replay;
    NeedsRow(s, id);
    ReplayIsExact(s, env, id);
    FirstNeedingMembers(s);
    hide Reconciled;
    var t := Reconciled(s, env);
    if id in FirstNeeding(s) && id !in env.replayCreateFails {
      var b :| |s.messages| <= b < |t.messages| && t.messages[b].updateId == id;
      ReplayLive(s, env, b);
      assert TwoLive(t, id, k, b);
    }
  }

  lemma NeedsRow(s: Store, id: int)
    requires NeedsHandoff(s, id)
    ensures id in s.rows
  {
  }

  lemma ReplayLive(s: Store, env: Env, b: nat)
    requires Books(s) && env.queryOk && |s.messages| <= b < |Reconciled(s, env).messages|
    ensures Live(Reconciled(s, env), b)
  {
    hide Books, FirstNeeding, NeedsHandoff, Replay;
    FirstNeedingMembers(s);
    ReplayCreates(s, FirstNeeding(s), env, Reconciled(s, env).messages[b].updateId);
  }

  lemma {:induction false} TakeAllRows(s: Store, updates: seq<Update>, env: Env, id: int)
    ensures var t := TakeAll(s, updates, env);
            && |t.messages| >= |s.messages| && (forall k :: 0 <= k < |s.messages| ==> t.messages[k] == s.messages[k])
            && (id in s.rows ==> id in t.rows && t.rows[id] == s.rows[id])
            && (forall k :: |s.messages| <= k < |t.messages| && t.messages[k].updateId == id && id in env.markFails ==>
                  id in t.rows && t.rows[id] == None)
            && (forall k :: |s.messages| <= k < |t.messages| ==> t.messages[k].status.InFlight?)
            && (forall k :: |s.messages| <= k < |t.messages| && t.messages[k].updateId == id ==> id !in s.rows)
    decreases |updates|
  {
    if updates != [] { TakeAllRows(s, updates[..|updates| - 1], env, id); }
  }

  /** An event waits, message `k` of it is under way, and no row points at it. */
  predicate Waits(s: Store, id: int, k: nat) {
    id in s.rows && NeedsHandoff(s, id) && Live(s, k) && s.messages[k].updateId == id
  }

  lemma TakeAllWaits(s: Store, updates: seq<Update>, env: Env, id: int, k: nat)
    requires Waits(s, id, k) && (s.rows[id].Some? ==> s.rows[id].value < |s.messages|)
    ensures Waits(TakeAll(s, updates, env), id, k)
  {
    TakeAllRows(s, updates, env, id);
    hide TakeAll;
  }

  /** The event whose mark threw in an iteration waits on after it, with its message under way. */
  lemma UnmarkedWaits(c: Core, env: Env, k: nat)
    requires Books(c.store) && |c.store.messages| <= k < |Step(c, env).0.store.messages|
    requires MarkThrew(Step(c, env).0.store.messages[k], env)
    ensures Waits(Step(c, env).0.store, Step(c, env).0.store.messages[k].updateId, k)
  {
    hide *;
    var (n, e) := Step(c, env);
    var s, id := Awake(c, env).store, n.store.messages[k].updateId;
    StepStore(c, env);
    WakingKeeps(c, env);
    if e.Processed? {
      TakeAllRows(s, e.updates, env, id);
      TakeAllKeeps(s, e.updates, env);
    }
    if k < |s.messages| {
      WokenWaits(c, env, k);
      WaitsHas(s, s.messages[k].updateId, k);
      RowsPoint(s, s.messages[k].updateId);
      if e.Processed? { TakeAllWaits(s, e.updates, env, id, k); }
      SameWaits(if e.Processed? then TakeAll(s, e.updates, env) else s, n.store, id, k);
    } else {
      NewWaits(n.store, env, id, k);
    }
  }

  lemma SameWaits(s: Store, t: Store, id: int, k: nat)
    requires Waits(s, id, k) && t.rows == s.rows && t.messages == s.messages
    ensures Waits(t, id, k)
  {
  }

  lemma NewWaits(t: Store, env: Env, id: int, k: nat)
    requires k < |t.messages| && t.messages[k].updateId == id && t.messages[k].byBatch && t.messages[k].status.InFlight?
    requires MarkThrew(t.messages[k], env) && (id in env.markFails ==> id in t.rows && t.rows[id] == None)
    ensures Waits(t, id, k)
  {
  }

  lemma WokenWaits(c: Core, env: Env, k: nat)
    requires Books(c.store) && |c.store.messages| <= k < |Awake(c, env).store.messages|
    requires MarkThrew(Awake(c, env).store.messages[k], env)
    ensures Waits(Awake(c, env).store, Awake(c, env).store.messages[k].updateId, k)
  {
    hide Books, FirstNeeding, Replay, NeedsHandoff, Grows;
    var s, t := Lose(c.store, env.lost), Awake(c, env).store;
    LoseKeeps(c.store, env.lost);
    WakingKeeps(c, env);
    var id := t.messages[k].updateId;
    RowOf(t, k);
    ReplayIsExact(s, env, id);
    ReplayLive(s, env, k);
  }

  lemma RowOf(s: Store, k: nat)
    requires Books(s) && k < |s.messages|
    ensures s.messages[k].updateId in s.rows
  {
  }

  lemma LoseWaits(s: Store, lost: map<nat, Loss>, id: int, k: nat)
    requires Waits(s, id, k) && k !in lost
    ensures Waits(Lose(s, lost), id, k)
  {
  }

  /** Message `k` was created in the i-th iteration, and its mark threw. */
  predicate UnmarkedAt(r: Run, i: nat, k: nat)
    requires i < |r.envs|
  {
    |r.Before(i).store.messages| <= k < |r.Before(i + 1).store.messages| && MarkThrew(r.Before(i + 1).store.messages[k], r.envs[i])
  }

  /** A mark that throws doubles the message: in the next iteration, as long as the router has not given up on the first one
      and the query does not throw, a second message goes under way exactly if the replay reaches the event and can create. */
  lemma FailedMarkDoubles(r: Run, i: nat, k: nat)
    requires Books(r.start.store) && i + 1 < |r.envs| && UnmarkedAt(r, i, k)
    requires k !in r.envs[i + 1].lost && r.envs[i + 1].queryOk
    ensures var s, t := Lose(r.Before(i + 1).store, r.envs[i + 1].lost), Woken(r, i + 1);
            var id := r.Before(i + 1).store.messages[k].updateId;
            (exists b :: b >= |s.messages| && TwoLive(t, id, k, b)) <==> id in FirstNeeding(s) && id !in r.envs[i + 1].replayCreateFails
  {
    UnmarkedIs(r, i, k);
    hide *;
    RunBooks(r, i);
    RunBooks(r, i + 1);
    Unroll(r, i);
    UnmarkedWaits(r.Before(i), r.envs[i], k);
    var s := Lose(r.Before(i + 1).store, r.envs[i + 1].lost);
    LoseKeeps(r.Before(i + 1).store, r.envs[i + 1].lost);
    LoseWaits(r.Before(i + 1).store, r.envs[i + 1].lost, r.Before(i + 1).store.messages[k].updateId, k);
    WaitsHas(s, r.Before(i + 1).store.messages[k].updateId, k);
    ReplayDoubles(s, r.envs[i + 1], r.Before(i + 1).store.messages[k].updateId, k);
    WokenIs(r, i + 1);
  }

  lemma UnmarkedIs(r: Run, i: nat, k: nat)
    requires i < |r.envs| && UnmarkedAt(r, i, k)
    ensures |r.Before(i).store.messages| <= k < |r.Before(i + 1).store.messages| && MarkThrew(r.Before(i + 1).store.messages[k], r.envs[i])
  {
    hide Step;
  }

  lemma WaitsHas(s: Store, id: int, k: nat)
    requires Waits(s, id, k)
    ensures Live(s, k) && NeedsHandoff(s, id) && s.messages[k].updateId == id && id in s.rows
  {
  }

  lemma WokenIs(r: Run, i: nat)
    requires i < |r.envs|
    ensures Woken(r, i) == Reconciled(Lose(r.Before(i).store, r.envs[i].lost), r.envs[i])
  {
    hide Step, Reconciled, Lose;
  }

  // ---- and exactly then --------------------------------------------------

  /** An iteration in which nothing throws and nothing else happens than the replay. */
  const QUIET: Env := Env(map[], true, {}, {}, false, 0, 0, 0, 0, HighWater(None), Updates([]), false, {}, {}, {})

  ghost function NeedSet(s: Store): set<int> {
    set id | id in s.rows && NeedsHandoff(s, id)
  }

  lemma LoseNone(s: Store)
    ensures Lose(s, map[]) == s
  {
  }

  lemma QuietStep(c: Core)
    requires !c.stopped
    ensures Step(c, QUIET).0.store == Reconciled(c.store, QUIET) && !Step(c, QUIET).0.stopped
  {
    LoseNone(c.store);
    hide Reconciled, Lose;
  }

  /** A quiet iteration hands the oldest waiting events off, so fewer wait; an event it does not reach waits on. */
  lemma QuietReplay(s: Store, id: int, k: nat)
    requires Books(s) && Waits(s, id, k)
    ensures var t := Reconciled(s, QUIET);
            if id in FirstNeeding(s) then Doubled(t, id) else Waits(t, id, k) && NeedSet(t) < NeedSet(s)
  {
    hide *;
    var t := Reconciled(s, QUIET);
    WaitsHas(s, id, k);
    QuietThrough(id);
    if id in FirstNeeding(s) {
      ReplayDoubles(s, QUIET, id, k);
      var b: nat :| b >= |s.messages| && TwoLive(t, id, k, b);
      DoubledBy(t, id, k, b);
    } else {
      ReplayIsExact(s, QUIET, id);
      StillWaits(s, t, id, k);
      FewerNeed(s, id);
    }
  }

  lemma QuietThrough(id: int)
    ensures QUIET.queryOk && id !in QUIET.replayCreateFails && id !in QUIET.replayMarkFails && MarksThrough(QUIET, id)
  {
  }

  lemma DoubledBy(s: Store, id: int, a: nat, b: nat)
    requires TwoLive(s, id, a, b)
    ensures Doubled(s, id)
  {
  }

  lemma StillWaits(s: Store, t: Store, id: int, k: nat)
    requires Waits(s, id, k) && |t.messages| >= |s.messages| && t.messages[..|s.messages|] == s.messages
    requires id in t.rows && t.rows[id] == s.rows[id] && NeedsHandoff(t, id)
    ensures Waits(t, id, k)
  {
    assert t.messages[k] == t.messages[..|s.messages|][k];
  }

  lemma FewerNeed(s: Store, id: int)
    requires Books(s) && id in s.rows && NeedsHandoff(s, id)
    ensures NeedSet(Reconciled(s, QUIET)) < NeedSet(s)
  {
    hide NeedsHandoff, FirstNeeding, Replay, Reconciled, Books;
    var t := Reconciled(s, QUIET);
    FirstNeedingMembers(s);
    ReconciledRows(s, QUIET);
    forall i | i in NeedSet(t) ensures i in NeedSet(s) { ReplayIsExact(s, QUIET, i); }
    SomeFirst(s, id);
    var first := FirstNeeding(s)[0];
    assert first in FirstNeeding(s);
    ReplayIsExact(s, QUIET, first);
    assert first in NeedSet(s) && first !in NeedSet(t);
  }

  lemma SomeFirst(s: Store, id: int)
    requires Books(s) && id in s.rows && NeedsHandoff(s, id)
    ensures |FirstNeeding(s)| > 0
  {
    NeedingMembers(s, s.order);
    assert id in Needing(s, s.order);
  }

  lemma ReconciledRows(s: Store, env: Env)
    requires Books(s)
    ensures Reconciled(s, env).rows.Keys == s.rows.Keys
  {
    FirstNeedingMembers(s);
    hide Books, FirstNeeding, Replay;
    if env.queryOk { ReplayKeeps(s, FirstNeeding(s), env); }
  }

  /** Every mark of the update comes through. */
  ghost predicate Through(envs: seq<Env>, id: int) {
    forall i :: 0 <= i < |envs| ==> MarksThrough(envs[i], id)
  }

  function After(c: Core, envs: seq<Env>): Core {
    Run(c, envs).Before(|envs|)
  }

  lemma {:induction false} BeforeShifts(c: Core, e: Env, envs: seq<Env>, j: nat)
    requires j <= |envs|
    ensures Run(c, [e] + envs).Before(j + 1) == Run(Step(c, e).0, envs).Before(j)
  {
    hide Step;
    if j == 0 {
      assert Run(c, [e] + envs).Before(0) == c;
    } else {
      BeforeShifts(c, e, envs, j - 1);
      assert ([e] + envs)[j] == envs[j - 1];
    }
  }

  lemma AfterQuiet(c: Core, envs: seq<Env>, id: int)
    requires Through(envs, id)
    ensures Through([QUIET] + envs, id) && After(c, [QUIET] + envs) == After(Step(c, QUIET).0, envs)
  {
    hide *;
    BeforeShifts(c, QUIET, envs, |envs|);
    ThroughMore(envs, id);
    AfterIs(c, [QUIET] + envs);
    AfterIs(Step(c, QUIET).0, envs);
  }

  lemma AfterIs(c: Core, envs: seq<Env>)
    ensures After(c, envs) == Run(c, envs).Before(|envs|)
  {
    hide Step, Run.Before;
  }

  lemma ThroughMore(envs: seq<Env>, id: int)
    requires Through(envs, id)
    ensures Through([QUIET] + envs, id)
  {
    QuietThrough(id);
    hide MarksThrough;
    var more := [QUIET] + envs;
    forall i | 0 <= i < |more| ensures MarksThrough(more[i], id) {
      if i > 0 { assert more[i] == envs[i - 1]; }
    }
  }

  lemma AfterNone(c: Core, id: int)
    ensures After(c, []) == c && Through([], id)
  {
  }

  /** An event that waits with its message under way has two under way after some quiet iterations. */
  lemma {:induction false} DoublesSoon(c: Core, id: int, k: nat) returns (envs: seq<Env>)
    requires Books(c.store) && !c.stopped && Waits(c.store, id, k)
    ensures Through(envs, id) && Doubled(After(c, envs).store, id)
    decreases NeedSet(c.store)
  {
    hide *;
    var n := Step(c, QUIET).0;
    QuietStep(c);
    QuietReplay(c.store, id, k);
    StepStore(c, QUIET);
    AfterNone(n, id);
    envs := [];
    if id !in FirstNeeding(c.store) { envs := DoublesSoon(n, id, k); }
    AfterQuiet(c, envs, id);
    envs := [QUIET] + envs;
  }

  /** However the loop goes on, as long as every mark of the update comes through, it has at most one message under way. */
  ghost predicate KeepsOne(c: Core, id: int) {
    forall envs: seq<Env> :: Through(envs, id) ==> !Doubled(After(c, envs).store, id)
  }

  /** Exactly when an update is never under way twice from here on, its marks coming through: when its row points at each of
      its live messages. A stopped loop has only not to have doubled it yet. */
  lemma TwoLiveIff(c: Core, id: int)
    requires Books(c.store)
    ensures KeepsOne(c, id) <==> if c.stopped then !Doubled(c.store, id) else AllPointed(c.store, id)
  {
    hide *;
    AfterNone(c, id);
    if c.stopped {
      StoppedKeeps(c, id);
    } else if AllPointed(c.store, id) {
      PointedKeeps(c, id);
    } else if !Doubled(c.store, id) {
      var k := Unpointed(c.store, id);
      var envs := DoublesSoon(c, id, k);
      NotKept(c, envs, id);
    } else {
      NotKept(c, [], id);
    }
  }

  lemma NotKept(c: Core, envs: seq<Env>, id: int)
    requires Through(envs, id) && Doubled(After(c, envs).store, id)
    ensures !KeepsOne(c, id)
  {
    hide After, Through, Doubled;
  }

  lemma PointedKeeps(c: Core, id: int)
    requires Books(c.store) && AllPointed(c.store, id)
    ensures KeepsOne(c, id)
  {
    hide Step, Doubled, AllPointed, MarksThrough;
    forall envs: seq<Env> | Through(envs, id) ensures !Doubled(After(c, envs).store, id) {
      NoDoubleLive(Run(c, envs), |envs|, id);
    }
  }

  lemma {:induction false} StoppedStays(r: Run, j: nat)
    requires r.start.stopped && j <= |r.envs|
    ensures r.Before(j) == r.start
  {
    if j > 0 { StoppedStays(r, j - 1); }
  }

  lemma StoppedKeeps(c: Core, id: int)
    requires c.stopped
    ensures KeepsOne(c, id) <==> !Doubled(c.store, id)
  {
    hide Step, Doubled;
    AfterNone(c, id);
    forall envs: seq<Env> ensures After(c, envs) == c { StoppedStays(Run(c, envs), |envs|); }
  }

  /** A live message its row does not point at, no other being live, makes the event wait. */
  lemma Unpointed(s: Store, id: int) returns (k: nat)
    requires Books(s) && !AllPointed(s, id) && !Doubled(s, id)
    ensures Waits(s, id, k)
  {
    k :| Live(s, k) && s.messages[k].updateId == id && !PointsAt(s, k);
    RowOf(s, k);
    RowsPoint(s, id);
    hide Books;
    if s.rows[id].Some? {
      var m := s.rows[id].value;
      assert !TwoLive(s, id, k, m);
    }
  }

  // ---- what is handed off again ------------------------------------------

  /** In the i-th iteration the replay creates a message for the update. */
  predicate Redelivers(r: Run, i: nat, id: int)
    requires i < |r.envs|
  {
    && !r.Before(i).stopped && r.envs[i].queryOk && id !in r.envs[i].replayCreateFails
    && id in FirstNeeding(Lose(r.Before(i).store, r.envs[i].lost))
  }

  /** From `s` to `t` a message of the update was created. */
  ghost predicate NewMessage(s: Store, t: Store, id: int) {
    exists b :: |s.messages| <= b < |t.messages| && t.messages[b].updateId == id
  }

  /** For an update that has a row, one iteration creates a message exactly if its replay does. */
  lemma StepCreates(c: Core, env: Env, id: int)
    requires Books(c.store) && id in c.store.rows
    ensures var t := Step(c, env).0.store;
            && id in t.rows
            && (NewMessage(c.store, t, id) <==>
                !c.stopped && env.queryOk && id !in env.replayCreateFails && id in FirstNeeding(Lose(c.store, env.lost)))
  {
    hide *;
    var (n, e) := Step(c, env);
    var s, a := Lose(c.store, env.lost), Awake(c, env).store;
    StepStore(c, env);
    WakingKeeps(c, env);
    AwakeCreates(c, env, id);
    GrowsSays(c.store, n.store);
    if c.stopped {
      StoppedStep(c, env);
      NoneNew(c.store, id);
    } else {
      if e.Processed? { TakeAllRows(a, e.updates, env, id); }
      SameNew(c.store, a, n.store, id);
    }
  }

  lemma SameNew(s: Store, t: Store, u: Store, id: int)
    requires |s.messages| <= |t.messages| <= |u.messages|
    requires forall k :: 0 <= k < |t.messages| ==> u.messages[k] == t.messages[k]
    requires forall k :: |t.messages| <= k < |u.messages| ==> u.messages[k].updateId != id
    ensures NewMessage(s, u, id) <==> NewMessage(s, t, id)
  {
    if b :| |s.messages| <= b < |t.messages| && t.messages[b].updateId == id { assert u.messages[b].updateId == id; }
  }

  lemma NoneNew(s: Store, id: int)
    ensures !NewMessage(s, s, id)
  {
  }

  lemma StoppedStep(c: Core, env: Env)
    requires c.stopped
    ensures Step(c, env) == (c, Stopped)
  {
  }

  lemma AwakeCreates(c: Core, env: Env, id: int)
    requires Books(c.store) && id in c.store.rows
    ensures var t := Awake(c, env).store;
            && |t.messages| >= |c.store.messages| && id in t.rows
            && (NewMessage(c.store, t, id) <==>
                env.queryOk && id !in env.replayCreateFails && id in FirstNeeding(Lose(c.store, env.lost)))
  {
    hide Books, FirstNeeding, Replay, NeedsHandoff, Grows;
    var s := Lose(c.store, env.lost);
    LoseKeeps(c.store, env.lost);
    FirstNeedingMembers(s);
    if env.queryOk {
      ReplayIsExact(s, env, id);
      if id in FirstNeeding(s) { assert NeedsHandoff(s, id); }
    }
  }

  lemma {:induction false} RunCreates(r: Run, i: nat, j: nat, id: int)
    requires Books(r.start.store) && i <= j <= |r.envs| && id in r.Before(i).store.rows
    ensures id in r.Before(j).store.rows
    ensures NewMessage(r.Before(i).store, r.Before(j).store, id) <==> exists m :: i <= m < j && Redelivers(r, m, id)
    decreases j - i
  {
    hide *;
    if i == j {
      NoneNew(r.Before(i).store, id);
    } else {
      RunCreates(r, i, j - 1, id);
      RunBooks(r, j - 1);
      Unroll(r, j - 1);
      StepCreates(r.Before(j - 1), r.envs[j - 1], id);
      StepStore(r.Before(j - 1), r.envs[j - 1]);
      RunGrows(r, i, j - 1);
      RedeliversIs(r, j - 1, id);
      NewTwice(r.Before(i).store, r.Before(j - 1).store, r.Before(j).store, id);
    }
  }

  lemma RedeliversIs(r: Run, i: nat, id: int)
    requires i < |r.envs|
    ensures Redelivers(r, i, id) <==>
            && !r.Before(i).stopped && r.envs[i].queryOk && id !in r.envs[i].replayCreateFails
            && id in FirstNeeding(Lose(r.Before(i).store, r.envs[i].lost))
  {
    hide Step, FirstNeeding, Lose;
  }

  lemma NewTwice(s: Store, t: Store, u: Store, id: int)
    requires Grows(s, t) && Grows(t, u)
    ensures NewMessage(s, u, id) <==> NewMessage(s, t, id) || NewMessage(t, u, id)
  {
    if NewMessage(s, t, id) {
      var b :| |s.messages| <= b < |t.messages| && t.messages[b].updateId == id;
      assert u.messages[b].updateId == id;
    }
    if b :| |s.messages| <= b < |u.messages| && u.messages[b].updateId == id {
      assert b < |t.messages| ==> t.messages[b].updateId == id;
    }
  }

  lemma {:induction false} RunGrows(r: Run, i: nat, j: nat)
    requires Books(r.start.store) && i <= j <= |r.envs|
    ensures Grows(r.Before(i).store, r.Before(j).store)
    decreases j - i
  {
    hide *;
    if i < j {
      RunGrows(r, i, j - 1);
      RunBooks(r, j - 1);
      Unroll(r, j - 1);
      StepStore(r.Before(j - 1), r.envs[j - 1]);
      GrowsTwice(r.Before(i).store, r.Before(j - 1).store, r.Before(j).store);
    } else {
      GrowsSelf(r.Before(i).store);
    }
  }

  /** The update's row points at message `k`, and that message is not lost. */
  predicate Delivered(s: Store, id: int, k: nat) {
    id in s.rows && s.rows[id] == Some(k) && Live(s, k)
  }

  lemma NotNeeding(s: Store, id: int, k: nat)
    requires Books(s) && Delivered(s, id, k)
    ensures id !in FirstNeeding(s)
  {
    FirstNeedingMembers(s);
    hide FirstNeeding, Books;
  }

  lemma LoseOther(s: Store, lost: map<nat, Loss>, id: int, k: nat)
    requires Delivered(s, id, k) && k !in lost
    ensures Delivered(Lose(s, lost), id, k)
  {
  }

  /** An iteration that does not lose the message leaves the update delivered. */
  lemma StepDelivered(c: Core, env: Env, id: int, k: nat)
    requires Books(c.store) && Delivered(c.store, id, k) && k !in env.lost
    ensures Delivered(Step(c, env).0.store, id, k) && id !in FirstNeeding(Lose(c.store, env.lost))
  {
    hide *;
    var (n, e) := Step(c, env);
    var s, a := Lose(c.store, env.lost), Awake(c, env).store;
    LoseKeeps(c.store, env.lost);
    LoseOther(c.store, env.lost, id, k);
    NotNeeding(s, id, k);
    StepStore(c, env);
    AwakeDelivered(c, env, id, k);
    HasRow(a, id, k);
    if c.stopped {
      StoppedStep(c, env);
    } else if e.Processed? {
      TakeAllRows(a, e.updates, env, id);
      SameDelivered(a, TakeAll(a, e.updates, env), id, k);
      SameDelivered(TakeAll(a, e.updates, env), n.store, id, k);
    } else {
      SameDelivered(a, n.store, id, k);
    }
  }

  lemma AwakeDelivered(c: Core, env: Env, id: int, k: nat)
    requires Books(c.store) && Delivered(Lose(c.store, env.lost), id, k)
    ensures Delivered(Awake(c, env).store, id, k)
  {
    var s := Lose(c.store, env.lost);
    LoseKeeps(c.store, env.lost);
    hide Books, FirstNeeding, Replay, Lose;
    if env.queryOk { ReplayIsExact(s, env, id); }
  }

  lemma SameDelivered(s: Store, t: Store, id: int, k: nat)
    requires Delivered(s, id, k) && |s.messages| <= |t.messages| && (forall m :: 0 <= m < |s.messages| ==> t.messages[m] == s.messages[m])
    requires id in t.rows && t.rows[id] == s.rows[id]
    ensures Delivered(t, id, k)
  {
  }

  lemma {:induction false} RunDelivered(r: Run, i: nat, j: nat, id: int, k: nat)
    requires Books(r.start.store) && i <= j <= |r.envs| && Delivered(r.Before(i).store, id, k)
    requires forall l :: i <= l < j ==> k !in r.envs[l].lost
    ensures Delivered(r.Before(j).store, id, k)
    decreases j - i
  {
    hide *;
    if i < j {
      RunDelivered(r, i, j - 1, id, k);
      RunBooks(r, j - 1);
      Unroll(r, j - 1);
      StepDelivered(r.Before(j - 1), r.envs[j - 1], id, k);
    }
  }

  /** A delivered update is handed off again exactly when its message was lost, given up by the router or deleted for its age
      though it had arrived, and a replay then or later reaches the update and can create. */
  lemma HandedOffAgainIff(r: Run, i: nat, j: nat, id: int, k: nat)
    requires Books(r.start.store) && i <= j <= |r.envs| && Delivered(r.Before(i).store, id, k)
    ensures NewMessage(r.Before(i).store, r.Before(j).store, id) <==> exists l, m :: i <= l <= m < j && k in r.envs[l].lost && Redelivers(r, m, id)
  {
    hide *;
    HasRow(r.Before(i).store, id, k);
    RunCreates(r, i, j, id);
    if m :| i <= m < j && Redelivers(r, m, id) {
      if forall l :: i <= l <= m ==> k !in r.envs[l].lost {
        RunDelivered(r, i, m, id, k);
        RunBooks(r, m);
        StepDelivered(r.Before(m), r.envs[m], id, k);
        RedeliversIs(r, m, id);
      }
    }
  }

  lemma HasRow(s: Store, id: int, k: nat)
    requires Delivered(s, id, k)
    ensures id in s.rows
  {
  }
}
