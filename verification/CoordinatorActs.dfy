/** What one iteration of the coordinator does, told from the environment and the store it finds: when it seeds, polls,
    yields and stops, what a batch leaves, and which stranded event the replay reaches. */
module CoordinatorActs {
  import opened Options
  import opened Coordinator
  import opened LiveMessages

  // ---- the phases --------------------------------------------------------

  /** While watching: a DOWN reading counts outside the 409 cooldown only; the second in a row seeds. The loop backfills
      exactly after a seed that came through, with the offset it brought; it stops exactly at a fatal one; a 409 starts the
      cooldown and the count over. */
  lemma WatchIff(c: Core, env: Env)
    requires Books(c.store) && !c.stopped && c.phase.Idle?
    ensures var n := Step(c, env).0;
            var streak := if env.down && env.readAt >= c.nativeUpUntil then c.downStreak + 1 else 0;
            var seeds := streak >= 2;
            && (n.phase.Backfilling? <==> seeds && env.seed.HighWater?)
            && (n.stopped <==> seeds && env.seed == SeedError(Fatal))
            && n.downStreak == (if seeds && env.seed == SeedError(Conflict) then 0 else streak)
            && n.nativeUpUntil == (if seeds && env.seed == SeedError(Conflict) then env.handledAt + 90000 else c.nativeUpUntil)
            && n.transientAttempt == (if seeds && env.seed.HighWater? then 0 else c.transientAttempt)
            && n.store.offset == (if seeds && env.seed.HighWater? && env.seed.hw.Some? then env.seed.hw.value else c.store.offset)
  {
    WakingKeeps(c, env);
    hide Books, Reconciled, Lose, Grows;
  }

  /** The batch that is handed off: one that was fetched and not empty, with both probes DOWN. */
  predicate Taken(env: Env) {
    env.down && env.poll.Updates? && env.poll.updates != [] && env.stillDown
  }

  /** While backfilling: the loop yields exactly on an UP probe, before the poll or after one that brought something, or on a 409,
      which starts the cooldown; it stops exactly at a fatal answer; the offset moves exactly with a batch that is taken, to
      its highest id. */
  lemma BackfillIff(c: Core, env: Env)
    requires Books(c.store) && !c.stopped && c.phase.Backfilling?
    ensures var n := Step(c, env).0; var conflict := env.down && env.poll == PollError(Conflict);
            && (n.phase.Idle? <==> !env.down || conflict || (env.poll.Updates? && env.poll.updates != [] && !env.stillDown))
            && (n.stopped <==> env.down && env.poll == PollError(Fatal))
            && n.downStreak == (if n.phase.Idle? then 0 else c.downStreak)
            && n.nativeUpUntil == (if conflict then env.handledAt + 90000 else c.nativeUpUntil)
            && n.transientAttempt == (if !env.down then c.transientAttempt else if env.poll.Updates? then 0
                                      else if env.poll == PollError(Transient) then c.transientAttempt + 1 else c.transientAttempt)
            && (!Taken(env) ==> n.store.offset == c.store.offset)
            && (Taken(env) ==>
                  && (exists k :: 0 <= k < |env.poll.updates| && env.poll.updates[k].id == n.store.offset)
                  && (forall k :: 0 <= k < |env.poll.updates| ==> env.poll.updates[k].id <= n.store.offset))
  {
    WakingKeeps(c, env);
    hide Books, Reconciled, Lose, Grows, TakeAll, MaxId;
  }

  /** A stopped loop does nothing. */
  lemma StoppedIff(c: Core, env: Env)
    requires c.stopped
    ensures Step(c, env).0 == c
  {
  }

  // ---- what a batch leaves -----------------------------------------------

  /** The batch has an update with this id that is handled and whose insert does not throw. */
  predicate Offered(updates: seq<Update>, env: Env, id: int) {
    id !in env.insertFails && exists k :: 0 <= k < |updates| && updates[k].mapped && updates[k].id == id
  }

  /** Exactly what a new update gets: no row without an offer; with one, a row, and one live message that the row points at,
      unless its create throws, which leaves neither message nor pointer, or its mark, which leaves the message alone. */
  predicate Booked(t: Store, env: Env, id: int, offered: bool) {
    if !offered then id !in t.rows && forall m :: 0 <= m < |t.messages| ==> t.messages[m].updateId != id
    else
      && id in t.rows
      && if id in env.createFails then
           t.rows[id].None? && forall m :: 0 <= m < |t.messages| ==> t.messages[m].updateId != id
         else
           exists m :: 0 <= m < |t.messages| && t.messages[m] == Message(id, true, InFlight) && t.rows[id] == (if id in env.markFails then None else Some(m))
                       && forall k :: 0 <= k < |t.messages| && t.messages[k].updateId == id ==> k == m
  }

  lemma {:induction false} BatchBooks(s: Store, updates: seq<Update>, env: Env, id: int)
    requires Books(s) && id !in s.rows
    ensures Booked(TakeAll(s, updates, env), env, id, Offered(updates, env, id))
    decreases |updates|
  {
    hide Books, Take, Booked;
    if updates == [] {
      NoneBooked(s, env, id);
    } else {
      var n := |updates| - 1;
      var before, u := TakeAll(s, updates[..n], env), updates[n];
      BatchBooks(s, updates[..n], env, id);
      TakeAllKeeps(s, updates[..n], env);
      OfferedNext(updates, env, id);
      if u.id == id { OneBooked(before, u, env, Offered(updates[..n], env, id)); } else { OtherBooked(before, u, env, id, Offered(updates[..n], env, id)); }
    }
  }

  lemma NoneBooked(s: Store, env: Env, id: int)
    requires Books(s) && id !in s.rows
    ensures Booked(s, env, id, Offered([], env, id))
  {
  }

  lemma OfferedNext(updates: seq<Update>, env: Env, id: int)
    requires updates != []
    ensures var n := |updates| - 1;
            Offered(updates, env, id) <==> Offered(updates[..n], env, id) || (updates[n].id == id && updates[n].mapped && id !in env.insertFails)
  {
    var n := |updates| - 1;
    if Offered(updates[..n], env, id) {
      var k :| 0 <= k < n && updates[..n][k].mapped && updates[..n][k].id == id;
      assert updates[k].mapped && updates[k].id == id;
    }
    if Offered(updates, env, id) {
      var k :| 0 <= k < |updates| && updates[k].mapped && updates[k].id == id;
      if k < n { assert updates[..n][k].mapped && updates[..n][k].id == id; }
    }
  }

  lemma OtherBooked(s: Store, u: Update, env: Env, id: int, offered: bool)
    requires u.id != id && Booked(s, env, id, offered)
    ensures Booked(Take(s, u, env), env, id, offered)
  {
    var t := Take(s, u, env);
    if offered && id !in env.createFails {
      var m :| 0 <= m < |s.messages| && s.messages[m] == Message(id, true, InFlight) && s.rows[id] == (if id in env.markFails then None else Some(m))
               && forall k :: 0 <= k < |s.messages| && s.messages[k].updateId == id ==> k == m;
      assert t.messages[m] == s.messages[m];
    }
  }

  lemma OneBooked(s: Store, u: Update, env: Env, offered: bool)
    requires Booked(s, env, u.id, offered)
    ensures Booked(Take(s, u, env), env, u.id, offered || (u.mapped && u.id !in env.insertFails))
  {
    var t := Take(s, u, env);
    if !offered && u.mapped && u.id !in env.insertFails && u.id !in env.createFails {
      assert t.messages[|s.messages|] == Message(u.id, true, InFlight);
    }
  }

  /** A batch taken while backfilling: every update it offers that is new is booked, and nothing else that is new. */
  lemma BatchIsTaken(c: Core, env: Env, id: int)
    requires Books(c.store) && !c.stopped && c.phase.Backfilling? && Taken(env) && id !in c.store.rows
    ensures Booked(Step(c, env).0.store, env, id, Offered(env.poll.updates, env, id))
  {
    hide *;
    TakenStore(c, env);
    WakingKeeps(c, env);
    BatchBooks(Awake(c, env).store, env.poll.updates, env, id);
    SameBooked(TakeAll(Awake(c, env).store, env.poll.updates, env), Step(c, env).0.store, env, id, Offered(env.poll.updates, env, id));
  }

  lemma TakenStore(c: Core, env: Env)
    requires !c.stopped && c.phase.Backfilling? && Taken(env)
    ensures var t, n := TakeAll(Awake(c, env).store, env.poll.updates, env), Step(c, env).0.store;
            n.rows == t.rows && n.messages == t.messages && n.order == t.order
    ensures env.poll.Updates?
  {
    hide Reconciled, Lose, TakeAll, MaxId;
  }

  lemma SameBooked(s: Store, t: Store, env: Env, id: int, offered: bool)
    requires Booked(s, env, id, offered) && t.rows == s.rows && t.messages == s.messages
    ensures Booked(t, env, id, offered)
  {
  }

  // ---- what the replay reaches -------------------------------------------

  /** The event has no message, or its message is lost, counting the losses of this iteration. */
  predicate Stranded(s: Store, lost: map<nat, Loss>, id: int) {
    id in s.rows &&
    (s.rows[id].None? || (s.rows[id].value < |s.messages| && (s.rows[id].value in lost || s.messages[s.rows[id].value].status.Lost?)))
  }

  function StrandedAmong(s: Store, lost: map<nat, Loss>, ids: seq<int>): nat {
    if ids == [] then 0
    else StrandedAmong(s, lost, ids[..|ids| - 1]) + if Stranded(s, lost, ids[|ids| - 1]) then 1 else 0
  }

  lemma StrandedNeeds(s: Store, lost: map<nat, Loss>, id: int)
    requires Books(s) && id in s.rows
    ensures NeedsHandoff(Lose(s, lost), id) <==> Stranded(s, lost, id)
  {
    RowsPoint(s, id);
    hide Books;
  }

  lemma {:induction false} NeedingSplits(s: Store, a: seq<int>, b: seq<int>)
    ensures Needing(s, a + b) == Needing(s, a) + Needing(s, b)
  {
    hide NeedsHandoff;
    if a == [] {
      assert a + b == b;
    } else {
      NeedingSplits(s, a[1..], b);
      assert (a + b)[1..] == a[1..] + b;
    }
  }

  lemma {:induction false} NeedingCounts(s: Store, lost: map<nat, Loss>, ids: seq<int>)
    requires Books(s) && forall k :: 0 <= k < |ids| ==> ids[k] in s.rows
    ensures |Needing(Lose(s, lost), ids)| == StrandedAmong(s, lost, ids)
  {
    hide Books, Stranded, NeedsHandoff, Lose;
    if ids != [] {
      var n := |ids| - 1;
      NeedingCounts(s, lost, ids[..n]);
      StrandedNeeds(s, lost, ids[n]);
      NeedingSplits(Lose(s, lost), ids[..n], [ids[n]]);
      assert ids == ids[..n] + [ids[n]];
    }
  }

  /** The replay is offered exactly the first fifty stranded events in the order they came. */
  lemma FirstFifty(s: Store, lost: map<nat, Loss>, p: nat)
    requires Books(s) && p < |s.order|
    ensures s.order[p] in FirstNeeding(Lose(s, lost)) <==> Stranded(s, lost, s.order[p]) && StrandedAmong(s, lost, s.order[..p]) < 50
  {
    hide *;
    var t, id := Lose(s, lost), s.order[p];
    OrderHas(s);
    LoseKeeps(s, lost);
    SameOrder(s, lost);
    NeedingCounts(s, lost, s.order[..p]);
    StrandedNeeds(s, lost, id);
    NeedingSplits(t, s.order[..p], s.order[p..]);
    assert s.order == s.order[..p] + s.order[p..];
    NeedingHead(t, s.order[p..]);
    NeedingMembers(t, s.order);
    NeedingMembers(t, s.order[p..][1..]);
    FirstIs(t);
    TakesFirst(Needing(t, s.order), Needing(t, s.order[..p]), Needing(t, s.order[p..][1..]), id);
    assert id in s.order;
  }

  lemma OrderHas(s: Store)
    requires Books(s)
    ensures Distinct(s.order) && forall k :: 0 <= k < |s.order| ==> s.order[k] in s.rows
  {
    assert forall k :: 0 <= k < |s.order| ==> s.order[k] in s.order;
  }

  lemma SameOrder(s: Store, lost: map<nat, Loss>)
    ensures Lose(s, lost).order == s.order && Lose(s, lost).rows == s.rows
  {
  }

  lemma NeedingHead(s: Store, ids: seq<int>)
    requires ids != []
    ensures Needing(s, ids) == (if NeedsHandoff(s, ids[0]) then [ids[0]] else []) + Needing(s, ids[1..])
  {
    hide NeedsHandoff;
  }

  lemma FirstIs(s: Store)
    ensures FirstNeeding(s) == if |Needing(s, s.order)| <= 50 then Needing(s, s.order) else Needing(s, s.order)[..50]
  {
    hide Needing;
  }

  /** Where an element of a sequence without repeats lies among its first fifty. */
  lemma TakesFirst(all: seq<int>, before: seq<int>, after: seq<int>, id: int)
    requires Distinct(all)
    ensures all == before + ([id] + after) ==> (id in (if |all| <= 50 then all else all[..50]) <==> |before| < 50)
  {
    if all == before + ([id] + after) {
      assert all[|before|] == id;
      var first := if |all| <= 50 then all else all[..50];
      if |before| < 50 { assert first[|before|] == id; }
      if id in first { var k :| 0 <= k < |first| && first[k] == id; assert all[k] == id; }
    }
  }

  /** Exactly what an iteration does for an event it finds: one new live message when the query comes through, the event is among
      the first fifty stranded ones and the create does not throw, none otherwise; its row then points at that message
      exactly if the mark comes through, and else stays as it was. */
  lemma ReplayIff(c: Core, env: Env, p: nat)
    requires Books(c.store) && !c.stopped && p < |c.store.order|
    ensures var s, t, id := c.store, Step(c, env).0.store, c.store.order[p];
            var sent := env.queryOk && Stranded(s, env.lost, id) && StrandedAmong(s, env.lost, s.order[..p]) < 50 && id !in env.replayCreateFails;
            && (NewMessage(s, t, id) <==> sent)
            && id in s.rows && id in t.rows
            && (!sent || id in env.replayMarkFails ==> t.rows[id] == s.rows[id])
            && (sent && id !in env.replayMarkFails ==> Delivered(t, id, if t.rows[id].Some? then t.rows[id].value else 0) && t.rows[id] != s.rows[id])
  {
    hide *;
    var id := c.store.order[p];
    OrderHas(c.store);
    FirstFifty(c.store, env.lost, p);
    StepCreates(c, env, id);
    RowAfter(c, env, id);
    LoseKeeps(c.store, env.lost);
    SameOrder(c.store, env.lost);
  }

  lemma RowAfter(c: Core, env: Env, id: int)
    requires Books(c.store) && !c.stopped && id in c.store.rows
    ensures var s, t := Lose(c.store, env.lost), Step(c, env).0.store;
            var marked := env.queryOk && id in FirstNeeding(s) && id !in env.replayCreateFails && id !in env.replayMarkFails;
            && id in t.rows
            && (!marked ==> t.rows[id] == c.store.rows[id])
            && (marked ==> t.rows[id].Some? && Delivered(t, id, t.rows[id].value) && t.rows[id] != c.store.rows[id])
  {
    hide *;
    var (n, e) := Step(c, env);
    var s, a := Lose(c.store, env.lost), Awake(c, env).store;
    WakingKeeps(c, env);
    StepStore(c, env);
    AwakeRow(c, env, id);
    RowsPoint(c.store, id);
    if e.Processed? {
      TakeAllRows(a, e.updates, env, id);
      if a.rows[id].Some? && Delivered(a, id, a.rows[id].value) {
        SameDelivered(a, TakeAll(a, e.updates, env), id, a.rows[id].value);
        SameDelivered(TakeAll(a, e.updates, env), n.store, id, a.rows[id].value);
      }
    } else if a.rows[id].Some? && Delivered(a, id, a.rows[id].value) {
      SameDelivered(a, n.store, id, a.rows[id].value);
    }
  }

  lemma AwakeRow(c: Core, env: Env, id: int)
    requires Books(c.store) && id in c.store.rows
    ensures var s, t := Lose(c.store, env.lost), Awake(c, env).store;
            var marked := env.queryOk && id in FirstNeeding(s) && id !in env.replayCreateFails && id !in env.replayMarkFails;
            && id in t.rows
            && (!marked ==> t.rows[id] == c.store.rows[id])
            && (marked ==> t.rows[id].Some? && Delivered(t, id, t.rows[id].value) && t.rows[id] != c.store.rows[id])
  {
    var s := Lose(c.store, env.lost);
    LoseKeeps(c.store, env.lost);
    FirstNeedingMembers(s);
    RowsPoint(c.store, id);
    hide Books, FirstNeeding, Replay, NeedsHandoff;
    if env.queryOk { ReplayOne(s, FirstNeeding(s), env, id); }
  }

  /** An iteration changes no message it finds, but marks the lost ones. */
  lemma MessagesAfter(c: Core, env: Env, k: nat)
    requires Books(c.store) && !c.stopped && k < |c.store.messages|
    ensures var m, t := c.store.messages[k], Step(c, env).0.store;
            k < |t.messages| && t.messages[k] == if k in env.lost then m.(status := Lost(env.lost[k])) else m
  {
    hide *;
    var (n, e) := Step(c, env);
    var s, a := Lose(c.store, env.lost), Awake(c, env).store;
    StepStore(c, env);
    LoseKeeps(c.store, env.lost);
    LoseAt(c.store, env.lost, k);
    AwakeMessages(c, env);
    if e.Processed? { TakeAllRows(a, e.updates, env, 0); }
  }

  lemma LoseAt(s: Store, lost: map<nat, Loss>, k: nat)
    requires k < |s.messages|
    ensures |Lose(s, lost).messages| == |s.messages|
    ensures Lose(s, lost).messages[k] == if k in lost then s.messages[k].(status := Lost(lost[k])) else s.messages[k]
  {
  }

  lemma AwakeMessages(c: Core, env: Env)
    requires Books(c.store)
    ensures var s, t := Lose(c.store, env.lost), Awake(c, env).store;
            |s.messages| <= |t.messages| && forall k :: 0 <= k < |s.messages| ==> t.messages[k] == s.messages[k]
  {
    var s := Lose(c.store, env.lost);
    LoseKeeps(c.store, env.lost);
    FirstNeedingMembers(s);
    hide Books, FirstNeeding, Replay, NeedsHandoff, Lose;
    if env.queryOk { ReplayOld(s, FirstNeeding(s), env); }
  }

  lemma {:induction false} ReplayOld(s: Store, ids: seq<int>, env: Env)
    ensures var t := Replay(s, ids, env);
            |s.messages| <= |t.messages| && forall k :: 0 <= k < |s.messages| ==> t.messages[k] == s.messages[k]
    decreases |ids|
  {
    if ids != [] { ReplayOld(s, ids[..|ids| - 1], env); }
  }

  // ---- nothing is lost for good ------------------------------------------

  /** An iteration in which no message is lost, the query comes through and no replayed hand-off throws. Polls, seeds and batches
      may do what they like. */
  predicate Calm(env: Env) {
    env.lost == map[] && env.queryOk && env.replayCreateFails == {} && env.replayMarkFails == {}
  }

  lemma OrderStays(c: Core, env: Env)
    requires Books(c.store) && !c.stopped
    ensures c.store.order <= Step(c, env).0.store.order
  {
    hide Books, FirstNeeding, TakeAll, Replay;
    var s := Lose(c.store, env.lost);
    ReplayOrder(s, FirstNeeding(s), env);
    if env.poll.Updates? { TakeAllOrder(Awake(c, env).store, env.poll.updates, env); }
  }

  lemma {:induction false} ReplayOrder(s: Store, ids: seq<int>, env: Env)
    ensures Replay(s, ids, env).order == s.order
    decreases |ids|
  {
    if ids != [] { ReplayOrder(s, ids[..|ids| - 1], env); }
  }

  lemma {:induction false} TakeAllOrder(s: Store, updates: seq<Update>, env: Env)
    ensures s.order <= TakeAll(s, updates, env).order
    decreases |updates|
  {
    if updates != [] { TakeAllOrder(s, updates[..|updates| - 1], env); }
  }

  /** After a calm iteration the stranded events among the first `q` are those past the fiftieth. */
  lemma {:induction false} FiftyFewer(c: Core, env: Env, q: nat)
    requires Books(c.store) && !c.stopped && Calm(env) && q <= |c.store.order|
    ensures var before, after := StrandedAmong(c.store, map[], c.store.order[..q]), StrandedAmong(Step(c, env).0.store, map[], c.store.order[..q]);
            after == if before <= 50 then 0 else before - 50
  {
    hide *;
    CalmIs(env);
    if q == 0 {
      assert c.store.order[..0] == [];
      NoneStranded(c.store);
      NoneStranded(Step(c, env).0.store);
    } else {
      var s, t, id := c.store, Step(c, env).0.store, c.store.order[q - 1];
      FiftyFewer(c, env, q - 1);
      StrandedNext(s, s.order[..q - 1], id);
      StrandedNext(t, s.order[..q - 1], id);
      assert s.order[..q] == s.order[..q - 1] + [id];
      ReplayIff(c, env, q - 1);
      StrandedAfter(c, env, id);
      DeliveredIsNot(t, id, if t.rows[id].Some? then t.rows[id].value else 0);
    }
  }

  lemma CalmIs(env: Env)
    requires Calm(env)
    ensures env.lost == map[] && env.queryOk && env.replayCreateFails == {} && env.replayMarkFails == {}
  {
  }

  lemma NoneStranded(s: Store)
    ensures StrandedAmong(s, map[], []) == 0
  {
  }

  lemma StrandedNext(s: Store, ids: seq<int>, id: int)
    ensures StrandedAmong(s, map[], ids + [id]) == StrandedAmong(s, map[], ids) + if Stranded(s, map[], id) then 1 else 0
  {
    hide Stranded;
    assert (ids + [id])[..|ids|] == ids;
  }

  lemma DeliveredIsNot(s: Store, id: int, k: nat)
    ensures Delivered(s, id, k) ==> !Stranded(s, map[], id)
  {
  }

  /** With its row as it was and no message lost, an event is stranded as before. */
  lemma StrandedAfter(c: Core, env: Env, id: int)
    requires Books(c.store) && !c.stopped && env.lost == map[] && id in c.store.rows
    ensures var t := Step(c, env).0.store;
            id in t.rows && t.rows[id] == c.store.rows[id] ==> (Stranded(t, map[], id) <==> Stranded(c.store, map[], id))
  {
    RowsPoint(c.store, id);
    hide Step, Books;
    if c.store.rows[id].Some? { MessagesAfter(c, env, c.store.rows[id].value); }
  }

  /** A frozen main agent delays a message and never loses it: an event with `n` stranded ones before it is delivered after
      n / 50 + 1 calm iterations, whatever the loop polls, seeds or inserts in them. */
  lemma {:induction false} DeliveredAfter(r: Run, i: nat, j: nat, p: nat)
    requires Books(r.start.store) && i <= j <= |r.envs| && p < |r.Before(i).store.order|
    requires forall m :: i <= m < j ==> Calm(r.envs[m]) && !r.Before(m).stopped
    requires StrandedAmong(r.Before(i).store, map[], r.Before(i).store.order[..p]) < 50 * (j - i)
    ensures var id := r.Before(i).store.order[p]; id in r.Before(j).store.rows && !Stranded(r.Before(j).store, map[], id)
    decreases j - i
  {
    hide *;
    var c, env, n := r.Before(i), r.envs[i], r.Before(i + 1);
    var id := c.store.order[p];
    RunBooks(r, i);
    RunBooks(r, i + 1);
    Unroll(r, i);
    CalmIs(env);
    OrderStays(c, env);
    assert n.store.order[p] == id && n.store.order[..p] == c.store.order[..p];
    FiftyFewer(c, env, p);
    if StrandedAmong(c.store, map[], c.store.order[..p]) >= 50 {
      DeliveredAfter(r, i + 1, j, p);
    } else {
      ReplayIff(c, env, p);
      StrandedAfter(c, env, id);
      DeliveredIsNot(n.store, id, if n.store.rows[id].Some? then n.store.rows[id].value else 0);
      StaysDelivered(r, i + 1, j, id);
    }
  }

  lemma {:induction false} StaysDelivered(r: Run, i: nat, j: nat, id: int)
    requires Books(r.start.store) && i <= j <= |r.envs| && id in r.Before(i).store.rows && !Stranded(r.Before(i).store, map[], id)
    requires forall m :: i <= m < j ==> Calm(r.envs[m]) && !r.Before(m).stopped
    ensures id in r.Before(j).store.rows && !Stranded(r.Before(j).store, map[], id)
    decreases j - i
  {
    hide *;
    if i < j {
      StaysDelivered(r, i, j - 1, id);
      var c, env := r.Before(j - 1), r.envs[j - 1];
      RunBooks(r, j - 1);
      Unroll(r, j - 1);
      CalmIs(env);
      InOrder(c.store, id);
      var p :| 0 <= p < |c.store.order| && c.store.order[p] == id;
      ReplayIff(c, env, p);
      StrandedAfter(c, env, id);
    }
  }

  lemma InOrder(s: Store, id: int)
    requires Books(s) && id in s.rows
    ensures id in s.order
  {
  }
}
